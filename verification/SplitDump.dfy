/**
 * Reassembly of a split wiphy dump (MergePacketsForSplitWiphyDump in net/netlink_utils.cpp).
 *
 * The kernel spreads the attributes of each wiphy over many packets. The merger collects, for every wiphy and
 * attribute id, the payload fragments in arrival order and emits one packet per wiphy.
 */
module SplitDump {
  import opened Bytes
  import opened Attribute
  import opened Packet

  const NL80211_ATTR_WIPHY: U16 := 1
  const NL80211_ATTR_WDEV: U16 := 153
  const NL80211_CMD_NEW_WIPHY: Byte := 3

  predicate IsFilter(id: U16) {
    id == NL80211_ATTR_WIPHY || id == NL80211_ATTR_IFINDEX || id == NL80211_ATTR_WDEV
  }

  // ----- what the packets say -----

  /** One piece of one attribute of one wiphy. */
  datatype Fragment = Fragment(wiphy: U32, id: U16, payload: seq<Byte>)

  function Kept(wiphy: U32, attrs: seq<Tree>): seq<Fragment> {
    if attrs == [] then [] else
    (if IsFilter(attrs[0].id) then [] else [Fragment(wiphy, attrs[0].id, Body(attrs[0]))]) + Kept(wiphy, attrs[1..])
  }

  /** The fragments of a dump in arrival order, up to the first packet without wiphy index or with broken attributes. */
  datatype Gathering = Gathering(ok: bool, fragments: seq<Fragment>)

  function WiphyOf(packet: seq<Byte>): (r: Option<U32>)
    requires |packet| >= HDRLEN
  {
    assert Pow256(4) == 0x1_0000_0000;
    PacketInt(packet, NL80211_ATTR_WIPHY, 4)
  }

  function Gathered(packets: seq<seq<Byte>>): Gathering {
    if packets == [] then Gathering(true, []) else
    if |packets[0]| < HDRLEN then Gathering(false, []) else
    var wiphy, listing := WiphyOf(packets[0]), AllAttributes(packets[0][HDRLEN..]);
    if wiphy.None? || !listing.ok then Gathering(false, []) else
    var rest := Gathered(packets[1..]);
    Gathering(rest.ok, Kept(wiphy.value, listing.attrs) + rest.fragments)
  }

  // ----- what must come out -----

  predicate Matches(f: Fragment, wiphy: U32, id: U16) {
    f.wiphy == wiphy && f.id == id
  }

  /** The arrival-order concatenation of all fragments of one attribute. */
  function Joined(frs: seq<Fragment>, wiphy: U32, id: U16): seq<Byte> {
    if frs == [] then [] else
    (if Matches(frs[0], wiphy, id) then frs[0].payload else []) + Joined(frs[1..], wiphy, id)
  }

  function Wiphys(frs: seq<Fragment>): set<int> {
    set f | f in frs :: f.wiphy
  }

  function Ids(frs: seq<Fragment>, wiphy: int): set<int> {
    set f | f in frs && f.wiphy == wiphy :: f.id
  }

  function SortedWiphys(frs: seq<Fragment>): (ws: seq<U32>)
    ensures StrictlyAscending(ws) && forall w: U32 :: w in ws <==> w in Wiphys(frs)
  {
    var ws := Ascending(Wiphys(frs));
    assert forall i :: 0 <= i < |ws| ==> ws[i] in Wiphys(frs);
    ws
  }

  function SortedIds(frs: seq<Fragment>, wiphy: U32): (ids: seq<U16>)
    ensures StrictlyAscending(ids) && forall id: U16 :: id in ids <==> id in Ids(frs, wiphy)
  {
    var ids := Ascending(Ids(frs, wiphy));
    assert forall i :: 0 <= i < |ids| ==> ids[i] in Ids(frs, wiphy);
    ids
  }

  ghost predicate AllJoinsFit(frs: seq<Fragment>) {
    forall w: U32, id: U16 :: Fits(id, Joined(frs, w, id))
  }

  const HEADER: seq<Byte> := RequestHeader(0, NLM_F_REQUEST, NL80211_CMD_NEW_WIPHY, 0, 0)

  function Leaves(frs: seq<Fragment>, wiphy: U32, ids: seq<U16>): (ts: seq<Tree>)
    ensures |ts| == |ids|
    ensures forall i :: 0 <= i < |ids| ==> ts[i] == Leaf(ids[i], Joined(frs, wiphy, ids[i]))
  {
    seq(|ids|, i requires 0 <= i < |ids| => Leaf(ids[i], Joined(frs, wiphy, ids[i])))
  }

  function AttrsFor(frs: seq<Fragment>, wiphy: U32): seq<Tree> {
    [IntLeaf(NL80211_ATTR_WIPHY, wiphy, 4)] + Leaves(frs, wiphy, SortedIds(frs, wiphy))
  }

  function PacketFor(frs: seq<Fragment>, wiphy: U32): seq<Byte> {
    Packed(HEADER, EncodeAll(AttrsFor(frs, wiphy)))
  }

  function Output(frs: seq<Fragment>): (out: seq<seq<Byte>>)
    ensures |out| == |SortedWiphys(frs)|
    ensures forall i :: 0 <= i < |out| ==> out[i] == PacketFor(frs, SortedWiphys(frs)[i])
  {
    var ws := SortedWiphys(frs);
    seq(|ws|, i requires 0 <= i < |ws| => PacketFor(frs, ws[i]))
  }

  // ----- the code -----

  type Table = map<int, map<int, seq<Byte>>>

  ghost predicate Holds(table: Table, frs: seq<Fragment>) {
    && table.Keys == Wiphys(frs)
    && forall w: U32 :: w in table ==> RowHolds(table[w], frs, w)
  }

  ghost predicate RowHolds(row: map<int, seq<Byte>>, frs: seq<Fragment>, w: U32) {
    && row.Keys == Ids(frs, w)
    && forall id: U16 :: id in row ==> row[id] == Enc(id, Joined(frs, w, id))
  }

  lemma {:induction false} JoinedAppend(a: seq<Fragment>, b: seq<Fragment>, w: U32, id: U16)
    ensures Joined(a + b, w, id) == Joined(a, w, id) + Joined(b, w, id)
  {
    if a == [] {
      assert a + b == b;
    } else {
      assert (a + b)[0] == a[0] && (a + b)[1..] == a[1..] + b;
      JoinedAppend(a[1..], b, w, id);
      var head := if Matches(a[0], w, id) then a[0].payload else [];
      assert head + (Joined(a[1..], w, id) + Joined(b, w, id)) == head + Joined(a[1..], w, id) + Joined(b, w, id);
    }
  }

  lemma JoinsFitPrefix(a: seq<Fragment>, b: seq<Fragment>)
    requires AllJoinsFit(a + b)
    ensures AllJoinsFit(a)
  {
    forall w: U32, id: U16 ensures Fits(id, Joined(a, w, id)) {
      JoinedAppend(a, b, w, id);
      assert Fits(id, Joined(a + b, w, id));
    }
  }

  lemma {:induction false} JoinedOfAbsent(frs: seq<Fragment>, w: U32, id: U16)
    requires id !in Ids(frs, w)
    ensures Joined(frs, w, id) == []
  {
    if frs != [] {
      assert frs[0] in frs && forall f :: f in frs[1..] ==> f in frs;
      assert id !in Ids(frs[1..], w);
      JoinedOfAbsent(frs[1..], w, id);
    }
  }

  lemma SnocSets(frs: seq<Fragment>, f: Fragment)
    ensures Wiphys(frs + [f]) == Wiphys(frs) + {f.wiphy}
    ensures forall w :: Ids(frs + [f], w) == if w == f.wiphy then Ids(frs, w) + {f.id} else Ids(frs, w)
  {
    var all := frs + [f];
    assert forall g :: g in all <==> g in frs || g == f;
  }

  lemma SnocJoin(frs: seq<Fragment>, f: Fragment, w: U32, id: U16)
    ensures Joined(frs + [f], w, id) == if Matches(f, w, id) then Joined(frs, w, id) + f.payload else Joined(frs, w, id)
  {
    JoinedAppend(frs, [f], w, id);
    assert Joined(frs, w, id) + [] == Joined(frs, w, id);
    assert [f][1..] == [] && Joined([f][1..], w, id) == [];
  }

  lemma FiledRow(table: Table, f: Fragment, frs: seq<Fragment>, cell: seq<Byte>)
    requires Holds(table, frs)
    requires cell == Enc(f.id, Joined(frs + [f], f.wiphy, f.id))
    ensures var row := if f.wiphy in table then table[f.wiphy] else map[];
            Holds(table[f.wiphy := row[f.id := cell]], frs + [f])
  {
    var row := if f.wiphy in table then table[f.wiphy] else map[];
    SnocSets(frs, f);
    assert f.wiphy !in table ==> Ids(frs, f.wiphy) == {};
    assert RowHolds(row, frs, f.wiphy);
    FiledCell(row, f, frs, cell);
    forall w: U32 | w in table && w != f.wiphy ensures RowHolds(table[w], frs + [f], w) {
      OtherRow(table[w], f, frs, w);
    }
  }

  lemma FiledCell(row: map<int, seq<Byte>>, f: Fragment, frs: seq<Fragment>, cell: seq<Byte>)
    requires RowHolds(row, frs, f.wiphy)
    requires cell == Enc(f.id, Joined(frs + [f], f.wiphy, f.id))
    ensures RowHolds(row[f.id := cell], frs + [f], f.wiphy)
  {
    SnocSets(frs, f);
    forall id: U16 | id in row && id != f.id ensures row[id] == Enc(id, Joined(frs + [f], f.wiphy, id)) {
      SnocJoin(frs, f, f.wiphy, id);
    }
  }

  lemma OtherRow(row: map<int, seq<Byte>>, f: Fragment, frs: seq<Fragment>, w: U32)
    requires RowHolds(row, frs, w) && w != f.wiphy
    ensures RowHolds(row, frs + [f], w)
  {
    SnocSets(frs, f);
    forall id: U16 | id in row ensures row[id] == Enc(id, Joined(frs + [f], w, id)) {
      SnocJoin(frs, f, w, id);
    }
  }

  /** Extend a stored attribute by one more fragment. */
  method MergeInto(cell: seq<Byte>, id: U16, payload: seq<Byte>, ghost before: seq<Byte>) returns (r: seq<Byte>)
    requires cell == Enc(id, before) && Fits(id, before + payload)
    ensures r == Enc(id, before + payload)
  {
    EncReads(id, before);
    EncReads(id, payload);
    var stored := new NL80211Attr.FromBuffer(cell);
    var attr := new NL80211Attr(id, payload);
    var merged := stored.Merge(attr);
    return stored.data;
  }

  /** File one fragment: insert a new attribute or merge into the one already there. */
  method Absorb(table: Table, f: Fragment, ghost frs: seq<Fragment>) returns (result: Table)
    requires Holds(table, frs) && AllJoinsFit(frs + [f])
    ensures Holds(result, frs + [f])
  {
    ghost var before := Joined(frs, f.wiphy, f.id);
    var row := if f.wiphy in table then table[f.wiphy] else map[];
    SnocJoin(frs, f, f.wiphy, f.id);
    CellHolds(table, f, frs);
    var cell;
    if f.id !in row {
      var attr := new NL80211Attr(f.id, f.payload);
      cell := attr.data;
    } else {
      cell := MergeInto(row[f.id], f.id, f.payload, before);
    }
    FiledRow(table, f, frs, cell);
    result := table[f.wiphy := row[f.id := cell]];
  }

  /** What is known of the cell of a fragment before it is filed. */
  lemma CellHolds(table: Table, f: Fragment, frs: seq<Fragment>)
    requires Holds(table, frs) && AllJoinsFit(frs + [f])
    ensures var row := if f.wiphy in table then table[f.wiphy] else map[];
            var before := Joined(frs, f.wiphy, f.id);
            && Fits(f.id, before + f.payload)
            && (if f.id in row then row[f.id] == Enc(f.id, before) else before + f.payload == f.payload)
  {
    SnocJoin(frs, f, f.wiphy, f.id);
    assert Fits(f.id, Joined(frs + [f], f.wiphy, f.id));
    assert f.wiphy !in table ==> Ids(frs, f.wiphy) == {};
    assert f.wiphy in table ==> RowHolds(table[f.wiphy], frs, f.wiphy);
    if f.id !in Ids(frs, f.wiphy) {
      JoinedOfAbsent(frs, f.wiphy, f.id);
      assert [] + f.payload == f.payload;
    }
  }

  /** File all attributes of one packet. */
  method AbsorbAll(table: Table, wiphy: U32, attrs: seq<Tree>, ghost frs: seq<Fragment>) returns (result: Table)
    requires Holds(table, frs) && AllJoinsFit(frs + Kept(wiphy, attrs))
    ensures Holds(result, frs + Kept(wiphy, attrs))
  {
    result := table;
    ghost var filed := frs;
    for i := 0 to |attrs|
      invariant Holds(result, filed)
      invariant filed + Kept(wiphy, attrs[i..]) == frs + Kept(wiphy, attrs)
    {
      var attr := attrs[i];
      assert attrs[i..][1..] == attrs[i + 1..];
      if !IsFilter(attr.id) {
        var f := Fragment(wiphy, attr.id, Body(attr));
        assert filed + Kept(wiphy, attrs[i..]) == (filed + [f]) + Kept(wiphy, attrs[i + 1..]);
        JoinsFitPrefix(filed + [f], Kept(wiphy, attrs[i + 1..]));
        result := Absorb(result, f, filed);
        filed := filed + [f];
      }
    }
    assert filed + [] == filed;
  }

  lemma RowAt(row: map<int, seq<Byte>>, frs: seq<Fragment>, wiphy: U32, id: U16)
    requires RowHolds(row, frs, wiphy) && id in Ids(frs, wiphy)
    ensures id in row && row[id] == Encode(Leaf(id, Joined(frs, wiphy, id)))
  {
  }

  lemma AttrAt(frs: seq<Fragment>, wiphy: U32, ids: seq<U16>, i: nat)
    requires ids == SortedIds(frs, wiphy) && i < |ids|
    ensures ids[i] in Ids(frs, wiphy)
    ensures |AttrsFor(frs, wiphy)| == |ids| + 1
    ensures AttrsFor(frs, wiphy)[i + 1] == Leaf(ids[i], Joined(frs, wiphy, ids[i]))
  {
    assert ids[i] in ids;
  }

  /** A row lists the encoded attributes of its wiphy in ascending order of id. */
  lemma RowEncodes(row: map<int, seq<Byte>>, frs: seq<Fragment>, wiphy: U32, ids: seq<int>)
    requires RowHolds(row, frs, wiphy) && ids == Ascending(row.Keys)
    ensures |AttrsFor(frs, wiphy)| == |ids| + 1
    ensures forall i :: 0 <= i < |ids| ==> ids[i] in row && row[ids[i]] == Encode(AttrsFor(frs, wiphy)[i + 1])
  {
    var sorted := SortedIds(frs, wiphy);
    assert ids == sorted;
    forall i | 0 <= i < |ids| ensures ids[i] in row && row[ids[i]] == Encode(AttrsFor(frs, wiphy)[i + 1]) {
      AttrAt(frs, wiphy, sorted, i);
      RowAt(row, frs, wiphy, sorted[i]);
    }
  }

  method BuildPacket(table: Table, wiphy: U32, ghost frs: seq<Fragment>) returns (data: seq<Byte>)
    requires Holds(table, frs) && wiphy in table
    ensures data == PacketFor(frs, wiphy)
  {
    var row := table[wiphy];
    var ids := Ascending(row.Keys);
    RowEncodes(row, frs, wiphy, ids);
    data := BuildFrom(wiphy, row, ids, AttrsFor(frs, wiphy));
  }

  method BuildFrom(wiphy: U32, row: map<int, seq<Byte>>, ids: seq<int>, ghost attrs: seq<Tree>)
    returns (data: seq<Byte>)
    requires |attrs| == |ids| + 1 && attrs[0] == IntLeaf(NL80211_ATTR_WIPHY, wiphy, 4)
    requires forall i :: 0 <= i < |ids| ==> ids[i] in row && row[ids[i]] == Encode(attrs[i + 1])
    ensures data == Packed(HEADER, EncodeAll(attrs))
  {
    var packet := new NL80211Packet(0, NL80211_CMD_NEW_WIPHY, 0, 0);
    var index := new NL80211Attr(NL80211_ATTR_WIPHY, LE(wiphy, 4));
    packet.AddAttribute(index);
    AddedTree(HEADER, [], attrs[0]);
    PrefixSnoc(attrs, 0);
    for i := 0 to |ids|
      invariant packet.data == Packed(HEADER, EncodeAll(attrs[..i + 1]))
    {
      var attr := new NL80211Attr.FromBuffer(row[ids[i]]);
      packet.AddAttribute(attr);
      AddedTree(HEADER, attrs[..i + 1], attrs[i + 1]);
      PrefixSnoc(attrs, i + 1);
    }
    assert attrs[..|ids| + 1] == attrs;
    return packet.data;
  }

  predicate Searchable(packet: seq<Byte>) {
    && |packet| >= HDRLEN
    && Readable(packet[HDRLEN..])
    && Find(packet[HDRLEN..], NL80211_ATTR_WIPHY) != Stuck
  }

  /** The two reads made of each packet. */
  method ReadPacket(data: seq<Byte>) returns (ok: bool, wiphy: U32, attrs: seq<Tree>)
    requires Searchable(data)
    ensures ok <==> WiphyOf(data).Some? && AllAttributes(data[HDRLEN..]).ok
    ensures ok ==> WiphyOf(data) == Some(wiphy) && AllAttributes(data[HDRLEN..]).attrs == attrs
  {
    ok, wiphy, attrs := false, 0, [];
    var packet := new NL80211Packet.FromBuffer(data);
    var index := packet.GetU32Value(NL80211_ATTR_WIPHY);
    if index.Some? {
      wiphy := index.value;
      ok, attrs := packet.GetAllAttributes();
    }
  }

  lemma GatheredStep(packets: seq<seq<Byte>>, i: nat, frs: seq<Fragment>)
    requires i < |packets| && |packets[i]| >= HDRLEN
    ensures var wiphy, listing := WiphyOf(packets[i]), AllAttributes(packets[i][HDRLEN..]);
            var rest := Gathered(packets[i + 1..]);
            if wiphy.Some? && listing.ok then
              var kept := Kept(wiphy.value, listing.attrs);
              && Gathered(packets[i..]).ok == rest.ok
              && frs + Gathered(packets[i..]).fragments == (frs + kept) + rest.fragments
            else
              Gathered(packets[i..]) == Gathering(false, [])
  {
    assert packets[i..][0] == packets[i] && packets[i..][1..] == packets[i + 1..];
  }

  /** The first loop: fill the table from the packets. */
  method Collect(packets: seq<seq<Byte>>) returns (ok: bool, table: Table)
    requires forall p :: p in packets ==> Searchable(p)
    requires AllJoinsFit(Gathered(packets).fragments)
    ensures ok == Gathered(packets).ok
    ensures ok ==> Holds(table, Gathered(packets).fragments)
  {
    table := map[];
    ghost var frs: seq<Fragment> := [];
    assert packets[0..] == packets;
    for i := 0 to |packets|
      invariant Holds(table, frs)
      invariant Gathered(packets).ok == Gathered(packets[i..]).ok
      invariant Gathered(packets).fragments == frs + Gathered(packets[i..]).fragments
    {
      assert Searchable(packets[i]);
      GatheredStep(packets, i, frs);
      var read, wiphy, attrs := ReadPacket(packets[i]);
      if !read {
        return false, table;
      }
      JoinsFitPrefix(frs + Kept(wiphy, attrs), Gathered(packets[i + 1..]).fragments);
      table := AbsorbAll(table, wiphy, attrs, frs);
      frs := frs + Kept(wiphy, attrs);
    }
    assert frs + [] == frs;
    return true, table;
  }

  method MergePacketsForSplitWiphyDump(packets: seq<seq<Byte>>) returns (ok: bool, out: seq<seq<Byte>>)
    requires forall p :: p in packets ==> Searchable(p)
    requires AllJoinsFit(Gathered(packets).fragments)
    ensures ok == Gathered(packets).ok
    ensures out == if ok then Output(Gathered(packets).fragments) else []
  {
    out := [];
    var table;
    ok, table := Collect(packets);
    if !ok {
      return;
    }
    out := Emit(table, Gathered(packets).fragments);
  }

  function SortedKeys(table: Table, ghost frs: seq<Fragment>): (ws: seq<U32>)
    requires Holds(table, frs)
    ensures ws == SortedWiphys(frs) && forall i :: 0 <= i < |ws| ==> ws[i] in table
  {
    var ws := SortedWiphys(frs);
    assert Ascending(table.Keys) == ws;
    assert forall i :: 0 <= i < |ws| ==> ws[i] in ws;
    Ascending(table.Keys)
  }

  /** The second loop: one packet per wiphy, in ascending order. */
  method Emit(table: Table, ghost frs: seq<Fragment>) returns (out: seq<seq<Byte>>)
    requires Holds(table, frs)
    ensures out == Output(frs)
  {
    var ws: seq<U32> := SortedKeys(table, frs);
    out := EmitFor(table, ws, frs, Output(frs));
  }

  method EmitFor(table: Table, ws: seq<U32>, ghost frs: seq<Fragment>, ghost goal: seq<seq<Byte>>)
    returns (out: seq<seq<Byte>>)
    requires Holds(table, frs) && forall i :: 0 <= i < |ws| ==> ws[i] in table
    requires |goal| == |ws| && forall i :: 0 <= i < |ws| ==> goal[i] == PacketFor(frs, ws[i])
    ensures out == goal
  {
    out := [];
    for i := 0 to |ws|
      invariant out == goal[..i]
    {
      var data := BuildPacket(table, ws[i], frs);
      PrefixSnoc(goal, i);
      out := out + [data];
    }
  }

  // ----- what the merged packets contain -----

  predicate DistinctIds(ts: seq<Tree>) {
    forall i, j :: 0 <= i < j < |ts| ==> ts[i].id != ts[j].id
  }

  lemma LeavesFit(frs: seq<Fragment>, w: U32, ids: seq<U16>)
    requires AllJoinsFit(frs)
    ensures AllFit(Leaves(frs, w, ids))
  {
    forall t | t in Leaves(frs, w, ids) ensures TreeFits(t) {
      var i :| 0 <= i < |ids| && t == Leaves(frs, w, ids)[i];
      assert Fits(ids[i], Joined(frs, w, ids[i]));
    }
  }

  lemma LeavesMembers(frs: seq<Fragment>, w: U32, ids: seq<U16>)
    requires StrictlyAscending(ids)
    ensures DistinctIds(Leaves(frs, w, ids))
    ensures forall t :: t in Leaves(frs, w, ids) <==> t.id in ids && t == Leaf(t.id, Joined(frs, w, t.id))
  {
    var ts := Leaves(frs, w, ids);
    forall t ensures t in ts <==> t.id in ids && t == Leaf(t.id, Joined(frs, w, t.id)) {
      if t in ts {
        var i :| 0 <= i < |ids| && t == ts[i];
      }
      if t.id in ids && t == Leaf(t.id, Joined(frs, w, t.id)) {
        var i :| 0 <= i < |ids| && ids[i] == t.id;
        assert ts[i] == t;
      }
    }
  }

  lemma AttrsForFit(frs: seq<Fragment>, w: U32)
    requires AllJoinsFit(frs)
    ensures AllFit(AttrsFor(frs, w)) && Flat(AttrsFor(frs, w)) == AttrsFor(frs, w)
    ensures AttrsFor(frs, w)[1..] == Leaves(frs, w, SortedIds(frs, w))
  {
    LeavesFit(frs, w, SortedIds(frs, w));
    assert TreeFits(IntLeaf(NL80211_ATTR_WIPHY, w, 4));
  }

  lemma {:induction false} FirstMatchDistinct(ts: seq<Tree>, id: U16)
    requires DistinctIds(ts)
    ensures FirstMatch(ts, id).None? <==> forall t :: t in ts ==> t.id != id
    ensures forall t :: t in ts && t.id == id ==> FirstMatch(ts, id) == Some(t)
  {
    if ts != [] {
      FirstMatchDistinct(ts[1..], id);
      assert ts == [ts[0]] + ts[1..];
    }
  }

  /** Looking up any id in a merged packet gives the joined fragments of that id, or nothing. */
  lemma OutputReads(frs: seq<Fragment>, w: U32, id: U16)
    requires AllJoinsFit(frs) && id != NL80211_ATTR_WIPHY
    ensures WiphyOf(PacketFor(frs, w)) == Some(w)
    ensures Find(PacketFor(frs, w)[HDRLEN..], id)
            == if id in Ids(frs, w) then Found(Enc(id, Joined(frs, w, id))) else Missing
    ensures AllAttributes(PacketFor(frs, w)[HDRLEN..]) == Listing(true, AttrsFor(frs, w))
  {
    var ts := AttrsFor(frs, w);
    AttrsForFit(frs, w);
    AllAttributesEncoded(ts);
    IndexReads(Part(HEADER, ts));
    IndexOfOutput(frs, w);
    WalkEncoded(ts, id);
    assert FirstMatch(ts, id) == FirstMatch(ts[1..], id);
    LeavesMembers(frs, w, SortedIds(frs, w));
    FirstMatchDistinct(ts[1..], id);
    if id in Ids(frs, w) {
      assert Leaf(id, Joined(frs, w, id)) in ts[1..];
    }
  }

  // ----- the split does not matter -----

  /** Two fragment lists that agree, attribute by attribute, on presence and on the joined payload. */
  ghost predicate SameContent(a: seq<Fragment>, b: seq<Fragment>) {
    && Wiphys(a) == Wiphys(b)
    && forall w: U32 :: Ids(a, w) == Ids(b, w) && forall id: U16 :: Joined(a, w, id) == Joined(b, w, id)
  }

  /** The output is a function of the joined attributes alone. */
  lemma OutputDependsOnContent(a: seq<Fragment>, b: seq<Fragment>)
    requires SameContent(a, b)
    ensures Output(a) == Output(b)
  {
    assert SortedWiphys(a) == SortedWiphys(b);
    forall w: U32 ensures PacketFor(a, w) == PacketFor(b, w) {
      assert SortedIds(a, w) == SortedIds(b, w);
      assert Leaves(a, w, SortedIds(a, w)) == Leaves(b, w, SortedIds(b, w));
    }
  }

  ghost predicate NoFilterIds(frs: seq<Fragment>) {
    forall f :: f in frs ==> !IsFilter(f.id)
  }

  /** And it loses nothing: two dumps merge to the same packets exactly when they have the same content. */
  lemma OutputIffContent(a: seq<Fragment>, b: seq<Fragment>)
    requires AllJoinsFit(a) && AllJoinsFit(b) && NoFilterIds(a) && NoFilterIds(b)
    ensures Output(a) == Output(b) <==> SameContent(a, b)
  {
    if SameContent(a, b) {
      OutputDependsOnContent(a, b);
    }
    if Output(a) == Output(b) {
      SameWiphys(a, b);
      forall w: U32, id: U16 ensures Joined(a, w, id) == Joined(b, w, id) && (id in Ids(a, w) <==> id in Ids(b, w)) {
        SameAttribute(a, b, w, id);
      }
      SetsAgree(a, b);
    }
  }

  lemma SameWiphys(a: seq<Fragment>, b: seq<Fragment>)
    requires AllJoinsFit(a) && AllJoinsFit(b) && Output(a) == Output(b)
    ensures SortedWiphys(a) == SortedWiphys(b) && Wiphys(a) == Wiphys(b)
  {
    var v, w := SortedWiphys(a), SortedWiphys(b);
    forall i | 0 <= i < |v| ensures v[i] == w[i] {
      OutputReads(a, v[i], 0);
      OutputReads(b, w[i], 0);
      assert Output(a)[i] == PacketFor(a, v[i]) && Output(b)[i] == PacketFor(b, w[i]);
    }
    assert v == w;
    forall f | f in a ensures f.wiphy in Wiphys(b) {
      assert f.wiphy in Wiphys(a) && f.wiphy in v;
    }
    forall f | f in b ensures f.wiphy in Wiphys(a) {
      assert f.wiphy in Wiphys(b) && f.wiphy in w;
    }
  }

  lemma SameAttribute(a: seq<Fragment>, b: seq<Fragment>, w: U32, id: U16)
    requires AllJoinsFit(a) && AllJoinsFit(b) && NoFilterIds(a) && NoFilterIds(b)
    requires Output(a) == Output(b) && SortedWiphys(a) == SortedWiphys(b) && Wiphys(a) == Wiphys(b)
    ensures Joined(a, w, id) == Joined(b, w, id) && (id in Ids(a, w) <==> id in Ids(b, w))
  {
    if w in Wiphys(a) && id != NL80211_ATTR_WIPHY {
      var ws := SortedWiphys(a);
      assert w in ws;
      var i :| 0 <= i < |ws| && ws[i] == w;
      assert Output(a)[i] == PacketFor(a, w) && Output(b)[i] == PacketFor(b, w);
      OutputReads(a, w, id);
      OutputReads(b, w, id);
      assert Fits(id, Joined(a, w, id)) && Fits(id, Joined(b, w, id));
      EncReads(id, Joined(a, w, id));
      EncReads(id, Joined(b, w, id));
    } else {
      assert id !in Ids(a, w) && id !in Ids(b, w);
    }
    if id !in Ids(a, w) && id !in Ids(b, w) {
      JoinedOfAbsent(a, w, id);
      JoinedOfAbsent(b, w, id);
    }
  }

  /** One packet of a dump: any header and any attributes. */
  type HeaderTail = h: seq<Byte> | |h| == HDRLEN - 4 witness Zeros(16)

  datatype Part = Part(header: HeaderTail, attrs: seq<Tree>)

  /** The wiphy index, wherever it stands among the attributes; its first occurrence must be 4 bytes wide. */
  function IndexOf(p: Part): Option<U32> {
    assert Pow256(4) == 0x1_0000_0000;
    match FirstMatch(p.attrs, NL80211_ATTR_WIPHY)
    case None => None
    case Some(t) => if |Body(t)| == 4 then FromLEBound(Body(t)); Some(FromLE(Body(t))) else None
  }

  predicate AllPartsFit(parts: seq<Part>) {
    forall i :: 0 <= i < |parts| ==> AllFit(parts[i].attrs)
  }

  predicate AllIndexed(parts: seq<Part>) {
    forall i :: 0 <= i < |parts| ==> IndexOf(parts[i]).Some?
  }

  function PacketOf(p: Part): seq<Byte> {
    Packed(p.header, EncodeAll(p.attrs))
  }

  function PacketsOf(parts: seq<Part>): (ps: seq<seq<Byte>>)
    ensures |ps| == |parts|
    ensures forall i :: 0 <= i < |ps| ==> ps[i] == PacketOf(parts[i])
  {
    seq(|parts|, i requires 0 <= i < |parts| => PacketOf(parts[i]))
  }

  function KeptOf(p: Part): seq<Fragment> {
    if IndexOf(p).None? then [] else Kept(IndexOf(p).value, p.attrs)
  }

  function KeptAll(parts: seq<Part>): seq<Fragment> {
    if parts == [] then [] else KeptOf(parts[0]) + KeptAll(parts[1..])
  }

  /** All attributes that a dump gives to one wiphy, in arrival order. */
  function Stream(parts: seq<Part>, wiphy: U32): seq<Tree> {
    if parts == [] then []
    else (if IndexOf(parts[0]) == Some(wiphy) then parts[0].attrs else []) + Stream(parts[1..], wiphy)
  }

  /** Reading the index of a packet is first-match lookup among its attributes. */
  lemma IndexReads(p: Part)
    requires AllFit(p.attrs)
    ensures WiphyOf(PacketOf(p)) == IndexOf(p)
    ensures Searchable(PacketOf(p))
  {
    WalkEncoded(p.attrs, NL80211_ATTR_WIPHY);
    AllAttributesEncoded(p.attrs);
    if FirstMatch(p.attrs, NL80211_ATTR_WIPHY).Some? {
      FirstMatchFits(p.attrs, NL80211_ATTR_WIPHY);
      EncReads(NL80211_ATTR_WIPHY, Body(FirstMatch(p.attrs, NL80211_ATTR_WIPHY).value));
    }
  }

  lemma IndexOfOutput(frs: seq<Fragment>, w: U32)
    ensures IndexOf(Part(HEADER, AttrsFor(frs, w))) == Some(w)
  {
    assert Pow256(4) == 0x1_0000_0000;
    FromLEofLE(w, 4);
  }

  lemma {:induction false} KeptFlat(w: U32, ts: seq<Tree>)
    ensures Kept(w, Flat(ts)) == Kept(w, ts)
  {
    if ts != [] {
      assert Flat(ts)[1..] == Flat(ts[1..]);
      KeptFlat(w, ts[1..]);
    }
  }

  lemma {:induction false} KeptAppend(w: U32, ts: seq<Tree>, us: seq<Tree>)
    ensures Kept(w, ts + us) == Kept(w, ts) + Kept(w, us)
  {
    if ts == [] {
      assert ts + us == us;
    } else {
      assert (ts + us)[0] == ts[0] && (ts + us)[1..] == ts[1..] + us;
      KeptAppend(w, ts[1..], us);
      var head := if IsFilter(ts[0].id) then [] else [Fragment(w, ts[0].id, Body(ts[0]))];
      assert head + (Kept(w, ts[1..]) + Kept(w, us)) == head + Kept(w, ts[1..]) + Kept(w, us);
    }
  }

  lemma GatheredFirst(p: Part, rest: seq<seq<Byte>>)
    requires AllFit(p.attrs)
    ensures Gathered([PacketOf(p)] + rest)
            == if IndexOf(p).None? then Gathering(false, [])
               else Gathering(Gathered(rest).ok, KeptOf(p) + Gathered(rest).fragments)
  {
    assert ([PacketOf(p)] + rest)[1..] == rest;
    IndexReads(p);
    AllAttributesEncoded(p.attrs);
    if IndexOf(p).Some? {
      KeptFlat(IndexOf(p).value, p.attrs);
    }
  }

  lemma PacketsSplit(parts: seq<Part>)
    requires parts != []
    ensures PacketsOf(parts) == [PacketOf(parts[0])] + PacketsOf(parts[1..])
  {
  }

  lemma IndexedSplit(parts: seq<Part>)
    requires parts != []
    ensures AllIndexed(parts) <==> IndexOf(parts[0]).Some? && AllIndexed(parts[1..])
  {
    assert forall i :: 1 <= i < |parts| ==> parts[i] == parts[1..][i - 1];
  }

  lemma PartsFitSplit(parts: seq<Part>)
    requires parts != [] && AllPartsFit(parts)
    ensures AllFit(parts[0].attrs) && AllPartsFit(parts[1..])
  {
    forall i | 0 <= i < |parts| - 1 ensures AllFit(parts[1..][i].attrs) {
      assert parts[1..][i] == parts[i + 1];
    }
  }

  /** A dump is read completely exactly when every packet has its index, and then as its unfiltered attributes. */
  lemma {:induction false} GatheredParts(parts: seq<Part>)
    requires AllPartsFit(parts)
    ensures Gathered(PacketsOf(parts)).ok <==> AllIndexed(parts)
    ensures AllIndexed(parts) ==> Gathered(PacketsOf(parts)).fragments == KeptAll(parts)
  {
    if parts != [] {
      PacketsSplit(parts);
      IndexedSplit(parts);
      PartsFitSplit(parts);
      GatheredFirst(parts[0], PacketsOf(parts[1..]));
      GatheredParts(parts[1..]);
    }
  }

  /** And it can be given to the merger. */
  lemma PartsSearchable(parts: seq<Part>)
    requires AllPartsFit(parts)
    ensures forall p :: p in PacketsOf(parts) ==> Searchable(p)
  {
    forall i | 0 <= i < |parts| ensures Searchable(PacketsOf(parts)[i]) {
      IndexReads(parts[i]);
    }
  }

  function Only(frs: seq<Fragment>, wiphy: U32): seq<Fragment> {
    if frs == [] then [] else (if frs[0].wiphy == wiphy then [frs[0]] else []) + Only(frs[1..], wiphy)
  }

  lemma {:induction false} OnlyAppend(a: seq<Fragment>, b: seq<Fragment>, w: U32)
    ensures Only(a + b, w) == Only(a, w) + Only(b, w)
  {
    if a == [] {
      assert a + b == b;
    } else {
      assert (a + b)[0] == a[0] && (a + b)[1..] == a[1..] + b;
      OnlyAppend(a[1..], b, w);
      var head := if a[0].wiphy == w then [a[0]] else [];
      assert head + (Only(a[1..], w) + Only(b, w)) == head + Only(a[1..], w) + Only(b, w);
    }
  }

  lemma {:induction false} OnlyOfKept(v: U32, ts: seq<Tree>, w: U32)
    ensures Only(Kept(v, ts), w) == if v == w then Kept(w, ts) else []
  {
    if ts != [] {
      OnlyOfKept(v, ts[1..], w);
      var head := if IsFilter(ts[0].id) then [] else [Fragment(v, ts[0].id, Body(ts[0]))];
      OnlyAppend(head, Kept(v, ts[1..]), w);
    }
  }

  lemma {:induction false} OnlyIsStream(parts: seq<Part>, w: U32)
    ensures Only(KeptAll(parts), w) == Kept(w, Stream(parts, w))
  {
    if parts != [] {
      OnlyIsStream(parts[1..], w);
      var p := parts[0];
      if IndexOf(p).Some? {
        OnlyOfKept(IndexOf(p).value, p.attrs, w);
      }
      OnlyAppend(KeptOf(p), KeptAll(parts[1..]), w);
      KeptAppend(w, if IndexOf(p) == Some(w) then p.attrs else [], Stream(parts[1..], w));
    }
  }

  lemma {:induction false} OnlyDecides(frs: seq<Fragment>, w: U32, id: U16)
    ensures Joined(frs, w, id) == Joined(Only(frs, w), w, id)
    ensures forall f :: f in Only(frs, w) <==> f in frs && f.wiphy == w
  {
    if frs != [] {
      OnlyDecides(frs[1..], w, id);
      assert frs == [frs[0]] + frs[1..];
      var head := if frs[0].wiphy == w then [frs[0]] else [];
      JoinedAppend(head, Only(frs[1..], w), w, id);
      assert head != [] ==> Joined(head[1..], w, id) == [];
    }
  }

  lemma SameStreamsSameContent(a: seq<Fragment>, b: seq<Fragment>)
    requires forall w: U32 :: Only(a, w) == Only(b, w)
    ensures SameContent(a, b)
  {
    forall w: U32, id: U16 ensures Joined(a, w, id) == Joined(b, w, id) {
      OnlyDecides(a, w, id);
      OnlyDecides(b, w, id);
    }
    forall f ensures f in a <==> f in b {
      OnlyDecides(a, f.wiphy, 0);
      OnlyDecides(b, f.wiphy, 0);
      assert Only(a, f.wiphy) == Only(b, f.wiphy);
    }
  }

  /**
   * However the attributes of each wiphy are spread over packets, wherever the wiphy index and the other filter
   * attributes stand, and however the packets of different wiphys interleave, the merged dump is the same.
   */
  lemma SplitDoesNotMatter(a: seq<Part>, b: seq<Part>)
    requires AllPartsFit(a) && AllPartsFit(b) && AllIndexed(a) && AllIndexed(b)
    requires forall w: U32 :: Kept(w, Stream(a, w)) == Kept(w, Stream(b, w))
    ensures var ga, gb := Gathered(PacketsOf(a)), Gathered(PacketsOf(b));
            ga.ok && gb.ok && Output(ga.fragments) == Output(gb.fragments)
  {
    GatheredParts(a);
    GatheredParts(b);
    forall w: U32 ensures Only(KeptAll(a), w) == Only(KeptAll(b), w) {
      OnlyIsStream(a, w);
      OnlyIsStream(b, w);
      assert Kept(w, Stream(a, w)) == Kept(w, Stream(b, w));
    }
    SameStreamsSameContent(KeptAll(a), KeptAll(b));
    OutputDependsOnContent(KeptAll(a), KeptAll(b));
  }

  /**
   * Exactly when: two dumps merge to the same packets if and only if they give every wiphy the same attribute ids with
   * the same joined payloads, whatever the packets, the order of different attributes and the cuts between fragments.
   */
  lemma DumpsAgreeIff(a: seq<Part>, b: seq<Part>)
    requires AllPartsFit(a) && AllPartsFit(b) && AllIndexed(a) && AllIndexed(b)
    requires AllJoinsFit(KeptAll(a)) && AllJoinsFit(KeptAll(b))
    ensures var ga, gb := Gathered(PacketsOf(a)), Gathered(PacketsOf(b));
            && ga.ok && gb.ok
            && (Output(ga.fragments) == Output(gb.fragments) <==> SameContent(KeptAll(a), KeptAll(b)))
  {
    GatheredParts(a);
    GatheredParts(b);
    GatheredHasNoFilters(PacketsOf(a));
    GatheredHasNoFilters(PacketsOf(b));
    OutputIffContent(KeptAll(a), KeptAll(b));
  }

  /** Nor does cutting one payload into two fragments. */
  lemma FragmentCutDoesNotMatter(before: seq<Fragment>, w: U32, id: U16, p: seq<Byte>, q: seq<Byte>,
                                 after: seq<Fragment>)
    ensures Output(before + [Fragment(w, id, p), Fragment(w, id, q)] + after)
            == Output(before + [Fragment(w, id, p + q)] + after)
  {
    var cut, whole := [Fragment(w, id, p), Fragment(w, id, q)], [Fragment(w, id, p + q)];
    var a, b := before + cut + after, before + whole + after;
    forall v: U32, i: U16 ensures Joined(a, v, i) == Joined(b, v, i) {
      JoinedAppend(before + cut, after, v, i);
      JoinedAppend(before, cut, v, i);
      JoinedAppend(before + whole, after, v, i);
      JoinedAppend(before, whole, v, i);
      assert cut[1..] == [Fragment(w, id, q)] && cut[1..][1..] == [] && whole[1..] == [];
      assert Joined(cut, v, i) == Joined(whole, v, i);
    }
    assert forall f :: f in a <==> f in before || f in cut || f in after;
    assert forall f :: f in b <==> f in before || f in whole || f in after;
    assert cut[0] in a && whole[0] in b;
    assert Wiphys(a) == Wiphys(b);
    forall v: U32 ensures Ids(a, v) == Ids(b, v) {
    }
    OutputDependsOnContent(a, b);
  }

  // ----- what a dump comes to, in terms of its packets alone -----

  predicate Occurs(ts: seq<Tree>, id: U16) {
    exists i :: 0 <= i < |ts| && ts[i].id == id
  }

  /** The bodies of all attributes with an id, joined in order. */
  function Bodies(ts: seq<Tree>, id: U16): seq<Byte> {
    if ts == [] then [] else (if ts[0].id == id then Body(ts[0]) else []) + Bodies(ts[1..], id)
  }

  lemma OccursSplit(ts: seq<Tree>, id: U16)
    requires ts != []
    ensures Occurs(ts, id) <==> ts[0].id == id || Occurs(ts[1..], id)
  {
    if i :| 0 <= i < |ts| && ts[i].id == id {
      assert i > 0 ==> ts[1..][i - 1].id == id;
    }
    if i :| 0 <= i < |ts[1..]| && ts[1..][i].id == id {
      assert ts[i + 1].id == id;
    }
  }

  lemma IdsOfCons(f: Fragment, frs: seq<Fragment>, w: U32)
    ensures Ids([f] + frs, w) == (if f.wiphy == w then {f.id} else {}) + Ids(frs, w)
  {
    assert forall g :: g in [f] + frs <==> g == f || g in frs;
  }

  lemma {:induction false} KeptMeans(w: U32, ts: seq<Tree>, id: U16)
    ensures id in Ids(Kept(w, ts), w) <==> id != 1 && id != 3 && id != 153 && Occurs(ts, id)
    ensures Joined(Kept(w, ts), w, id) == if id == 1 || id == 3 || id == 153 then [] else Bodies(ts, id)
  {
    if ts != [] {
      KeptMeans(w, ts[1..], id);
      OccursSplit(ts, id);
      var rest := Kept(w, ts[1..]);
      if IsFilter(ts[0].id) {
        assert Kept(w, ts) == [] + rest == rest;
        assert id == 1 || id == 3 || id == 153 || Bodies(ts, id) == [] + Bodies(ts[1..], id) == Bodies(ts[1..], id);
      } else {
        var f := Fragment(w, ts[0].id, Body(ts[0]));
        assert Kept(w, ts) == [f] + rest && Kept(w, ts)[1..] == rest;
        IdsOfCons(f, rest, w);
      }
    }
  }

  lemma {:induction false} StreamOccurs(parts: seq<Part>, w: U32, id: U16)
    ensures Occurs(Stream(parts, w), id)
            <==> exists i :: 0 <= i < |parts| && IndexOf(parts[i]) == Some(w) && Occurs(parts[i].attrs, id)
  {
    if parts != [] {
      var rest := parts[1..];
      StreamOccurs(rest, w, id);
      var head := if IndexOf(parts[0]) == Some(w) then parts[0].attrs else [];
      OccursAppend(head, Stream(rest, w), id);
      if i :| 0 <= i < |rest| && IndexOf(rest[i]) == Some(w) && Occurs(rest[i].attrs, id) {
        assert parts[i + 1] == rest[i];
      }
      if i :| 0 <= i < |parts| && IndexOf(parts[i]) == Some(w) && Occurs(parts[i].attrs, id) {
        assert i > 0 ==> rest[i - 1] == parts[i];
      }
    }
  }

  lemma OccursAppend(a: seq<Tree>, b: seq<Tree>, id: U16)
    ensures Occurs(a + b, id) <==> Occurs(a, id) || Occurs(b, id)
  {
    if i :| 0 <= i < |a| && a[i].id == id {
      assert (a + b)[i].id == id;
    }
    if i :| 0 <= i < |b| && b[i].id == id {
      assert (a + b)[|a| + i].id == id;
    }
  }

  /**
   * What is collected from any dump: of ids 1, 3 and 153 nothing; every other id exactly for the wiphys of the packets
   * that carry it, with the bodies of all its occurrences joined in arrival order.
   */
  lemma DumpContent(parts: seq<Part>, w: U32, id: U16)
    requires AllPartsFit(parts) && AllIndexed(parts)
    ensures var frs := Gathered(PacketsOf(parts)).fragments;
            if id == 1 || id == 3 || id == 153 then id !in Ids(frs, w)
            else
              && (id in Ids(frs, w) <==>
                    exists i :: 0 <= i < |parts| && IndexOf(parts[i]) == Some(w) && Occurs(parts[i].attrs, id))
              && Joined(frs, w, id) == Bodies(Stream(parts, w), id)
  {
    var frs := KeptAll(parts);
    GatheredParts(parts);
    OnlyIsStream(parts, w);
    OnlyDecides(frs, w, id);
    IdsOfOnly(frs, w);
    KeptMeans(w, Stream(parts, w), id);
    StreamOccurs(parts, w, id);
  }

  lemma IdsOfOnly(frs: seq<Fragment>, w: U32)
    ensures Ids(Only(frs, w), w) == Ids(frs, w)
  {
    OnlyDecides(frs, w, 0);
  }

  /** The whole dump is read exactly when each packet has an index and lists to its end. */
  lemma {:induction false} GatheredOkIff(packets: seq<seq<Byte>>)
    ensures Gathered(packets).ok <==>
            forall i :: 0 <= i < |packets| ==>
              |packets[i]| >= 20 && WiphyOf(packets[i]).Some? && AllAttributes(packets[i][20..]).ok
  {
    if packets != [] {
      var rest := packets[1..];
      GatheredOkIff(rest);
      assert forall i :: 1 <= i < |packets| ==> packets[i] == rest[i - 1];
    }
  }

  /** The packets come out in ascending order of wiphy, one for each wiphy that has something left. */
  lemma OutputOrder(frs: seq<Fragment>)
    requires AllJoinsFit(frs)
    ensures var out := Output(frs);
            && (forall i :: 0 <= i < |out| ==> |out[i]| >= HDRLEN && WiphyOf(out[i]).Some?)
            && (forall i, j :: 0 <= i < j < |out| ==> WiphyOf(out[i]).value < WiphyOf(out[j]).value)
            && (forall w: U32 :: Ids(frs, w) != {} <==> exists i :: 0 <= i < |out| && WiphyOf(out[i]) == Some(w))
  {
    var out, ws := Output(frs), SortedWiphys(frs);
    forall i | 0 <= i < |out| ensures |out[i]| >= HDRLEN && WiphyOf(out[i]) == Some(ws[i]) {
      OutputIndex(frs, i, ws);
    }
    forall w: U32 ensures Ids(frs, w) != {} <==> exists i :: 0 <= i < |out| && WiphyOf(out[i]) == Some(w) {
      SomethingLeft(frs, w);
      IndexMembers(out, ws, w);
    }
  }

  lemma OutputIndex(frs: seq<Fragment>, i: nat, ws: seq<U32>)
    requires AllJoinsFit(frs) && ws == SortedWiphys(frs) && i < |ws|
    ensures |Output(frs)[i]| >= HDRLEN && WiphyOf(Output(frs)[i]) == Some(ws[i])
  {
    OutputReads(frs, ws[i], 0);
  }

  lemma IndexMembers(out: seq<seq<Byte>>, ws: seq<U32>, w: U32)
    requires |out| == |ws|
    requires forall i :: 0 <= i < |out| ==> |out[i]| >= HDRLEN && WiphyOf(out[i]) == Some(ws[i])
    ensures w in ws <==> exists i :: 0 <= i < |out| && WiphyOf(out[i]) == Some(w)
  {
    if w in ws {
      var i :| 0 <= i < |ws| && ws[i] == w;
      assert WiphyOf(out[i]) == Some(w);
    }
    if i :| 0 <= i < |out| && WiphyOf(out[i]) == Some(w) {
      assert ws[i] in ws;
    }
  }

  lemma SomethingLeft(frs: seq<Fragment>, w: U32)
    ensures Ids(frs, w) != {} <==> w in Wiphys(frs)
  {
    if f :| f in frs && f.wiphy == w {
      assert f.id in Ids(frs, w);
    }
  }

  /** Ids in ascending order, each with its joined payload, behind the wiphy index. */
  ghost predicate Lists(attrs: seq<Tree>, frs: seq<Fragment>, w: U32) {
    && attrs != [] && attrs[0] == Leaf(1, LE(w, 4))
    && (forall i, j :: 1 <= i < j < |attrs| ==> attrs[i].id < attrs[j].id)
    && (forall i :: 1 <= i < |attrs| ==> attrs[i] == Leaf(attrs[i].id, Joined(frs, w, attrs[i].id)))
    && (forall id: U16 :: id in Ids(frs, w) <==> exists i :: 1 <= i < |attrs| && attrs[i].id == id)
  }

  /** Each packet is a NEW_WIPHY message that lists exactly what was collected for its wiphy. */
  lemma OutputPacket(frs: seq<Fragment>, i: nat)
    requires AllJoinsFit(frs) && i < |Output(frs)|
    ensures var d := Output(frs)[i];
            && |d| >= HDRLEN && WiphyOf(d).Some?
            && MsgType(d) == 0 && MsgSeq(d) == 0 && PortId(d) == 0 && Command(d) == 3
            && AllAttributes(d[HDRLEN..]).ok && Lists(AllAttributes(d[HDRLEN..]).attrs, frs, WiphyOf(d).value)
  {
    var w := SortedWiphys(frs)[i];
    var d, ids := PacketFor(frs, w), SortedIds(frs, w);
    OutputReads(frs, w, 0);
    HeaderParts(0, NLM_F_REQUEST, NL80211_CMD_NEW_WIPHY, 0, 0, EncodeAll(AttrsFor(frs, w)));
    ShortFieldsRead(d, 0, NLM_F_REQUEST);
    SequenceReads(d, 0);
    PortReads(d, 0);
    assert d[16] == d[16..][0];
    AttrsListed(frs, w, ids);
  }

  lemma AttrsListed(frs: seq<Fragment>, w: U32, ids: seq<U16>)
    requires ids == SortedIds(frs, w)
    ensures Lists(AttrsFor(frs, w), frs, w)
  {
    var attrs := AttrsFor(frs, w);
    forall i | 1 <= i < |attrs| ensures attrs[i] == Leaf(ids[i - 1], Joined(frs, w, ids[i - 1])) {
      AttrAt(frs, w, ids, i - 1);
    }
    forall id: U16 ensures id in Ids(frs, w) <==> exists i :: 1 <= i < |attrs| && attrs[i].id == id {
      if id in ids {
        var k :| 0 <= k < |ids| && ids[k] == id;
        assert attrs[k + 1].id == id;
      }
      if i :| 1 <= i < |attrs| && attrs[i].id == id {
        assert ids[i - 1] in ids;
      }
    }
  }

  // ----- merging again changes nothing -----

  function OutputParts(frs: seq<Fragment>, ws: seq<U32>): (parts: seq<Part>)
    ensures |parts| == |ws|
    ensures forall i :: 0 <= i < |ws| ==> parts[i] == Part(HEADER, AttrsFor(frs, ws[i]))
  {
    seq(|ws|, i requires 0 <= i < |ws| => Part(HEADER, AttrsFor(frs, ws[i])))
  }

  lemma {:induction false} StreamOfDistinct(parts: seq<Part>, w: U32)
    requires forall i, j :: 0 <= i < j < |parts| ==> IndexOf(parts[i]) != IndexOf(parts[j])
    ensures (forall p :: p in parts ==> IndexOf(p) != Some(w)) ==> Stream(parts, w) == []
    ensures forall p :: p in parts && IndexOf(p) == Some(w) ==> Stream(parts, w) == p.attrs
  {
    if parts != [] {
      var first, rest := parts[0], parts[1..];
      StreamOfDistinct(rest, w);
      assert parts == [first] + rest;
      if IndexOf(first) == Some(w) {
        forall p | p in rest ensures IndexOf(p) != Some(w) {
          var j :| 0 <= j < |rest| && p == rest[j];
          assert parts[j + 1] == p;
        }
        assert first.attrs + [] == first.attrs;
      }
    }
  }

  lemma OutputIndices(frs: seq<Fragment>, ws: seq<U32>)
    requires StrictlyAscending(ws)
    ensures forall i :: 0 <= i < |ws| ==> IndexOf(OutputParts(frs, ws)[i]) == Some(ws[i])
    ensures AllIndexed(OutputParts(frs, ws))
    ensures forall i, j :: 0 <= i < j < |ws| ==> IndexOf(OutputParts(frs, ws)[i]) != IndexOf(OutputParts(frs, ws)[j])
  {
    forall i | 0 <= i < |ws| ensures IndexOf(OutputParts(frs, ws)[i]) == Some(ws[i]) {
      IndexOfOutput(frs, ws[i]);
    }
  }

  lemma OutputIsPackets(frs: seq<Fragment>)
    requires AllJoinsFit(frs)
    ensures var parts := OutputParts(frs, SortedWiphys(frs));
            AllPartsFit(parts) && PacketsOf(parts) == Output(frs)
  {
    var ws := SortedWiphys(frs);
    var parts := OutputParts(frs, ws);
    forall i | 0 <= i < |ws| ensures AllFit(parts[i].attrs) && PacketsOf(parts)[i] == PacketFor(frs, ws[i]) {
      AttrsForFit(frs, ws[i]);
    }
  }

  predicate NoFilters(ts: seq<Tree>) {
    forall t :: t in ts ==> !IsFilter(t.id)
  }

  lemma {:induction false} KeptIds(w: U32, ts: seq<Tree>, id: U16)
    requires NoFilters(ts)
    ensures id in Ids(Kept(w, ts), w) <==> FirstMatch(ts, id).Some?
  {
    if ts != [] {
      KeptIds(w, ts[1..], id);
      var head := Fragment(w, ts[0].id, Body(ts[0]));
      assert Kept(w, ts) == [head] + Kept(w, ts[1..]);
      assert forall f :: f in Kept(w, ts) <==> f == head || f in Kept(w, ts[1..]);
    }
  }

  lemma {:induction false} JoinedOfDistinct(w: U32, ts: seq<Tree>, id: U16)
    requires DistinctIds(ts) && NoFilters(ts)
    ensures Joined(Kept(w, ts), w, id) == match FirstMatch(ts, id) case None => [] case Some(t) => Body(t)
  {
    if ts != [] {
      JoinedOfDistinct(w, ts[1..], id);
      FirstMatchDistinct(ts[1..], id);
      var head := Fragment(w, ts[0].id, Body(ts[0]));
      assert Kept(w, ts) == [head] + Kept(w, ts[1..]);
      assert Body(ts[0]) + [] == Body(ts[0]);
    }
  }

  lemma KeptOfAttrs(frs: seq<Fragment>, w: U32, leaves: seq<Tree>)
    requires leaves == Leaves(frs, w, SortedIds(frs, w))
    ensures Kept(w, AttrsFor(frs, w)) == Kept(w, leaves)
  {
    assert AttrsFor(frs, w)[1..] == leaves;
    assert Kept(w, AttrsFor(frs, w)) == [] + Kept(w, leaves);
  }

  lemma StreamOfOutput(frs: seq<Fragment>, w: U32, ws: seq<U32>)
    requires ws == SortedWiphys(frs)
    ensures Stream(OutputParts(frs, ws), w) == if w in Wiphys(frs) then AttrsFor(frs, w) else []
  {
    var parts := OutputParts(frs, ws);
    OutputIndices(frs, ws);
    StreamOfDistinct(parts, w);
    if w in Wiphys(frs) {
      assert w in ws;
      var i :| 0 <= i < |ws| && ws[i] == w;
      assert parts[i] in parts;
    } else {
      forall p | p in parts ensures IndexOf(p) != Some(w) {
        var i :| 0 <= i < |ws| && p == parts[i];
        assert ws[i] in ws;
      }
    }
  }

  lemma OutputStream(frs: seq<Fragment>, w: U32)
    ensures Kept(w, Stream(OutputParts(frs, SortedWiphys(frs)), w)) == Kept(w, Leaves(frs, w, SortedIds(frs, w)))
  {
    StreamOfOutput(frs, w, SortedWiphys(frs));
    if w in Wiphys(frs) {
      KeptOfAttrs(frs, w, Leaves(frs, w, SortedIds(frs, w)));
    } else {
      SomethingLeft(frs, w);
      assert SortedIds(frs, w) == [];
    }
  }

  lemma OutputContent(frs: seq<Fragment>, g: seq<Fragment>, w: U32, id: U16)
    requires NoFilterIds(frs)
    requires Only(g, w) == Kept(w, Leaves(frs, w, SortedIds(frs, w)))
    ensures Joined(g, w, id) == Joined(frs, w, id)
    ensures id in Ids(g, w) <==> id in Ids(frs, w)
  {
    var ids := SortedIds(frs, w);
    var ts := Leaves(frs, w, ids);
    LeafLookup(frs, w, id);
    JoinedOfDistinct(w, ts, id);
    KeptIds(w, ts, id);
    OnlyDecides(g, w, id);
    assert Ids(g, w) == Ids(Only(g, w), w);
    if id !in Ids(frs, w) {
      JoinedOfAbsent(frs, w, id);
    }
  }

  lemma LeafLookup(frs: seq<Fragment>, w: U32, id: U16)
    requires NoFilterIds(frs)
    ensures var ts := Leaves(frs, w, SortedIds(frs, w));
            && DistinctIds(ts) && NoFilters(ts)
            && FirstMatch(ts, id) == if id in Ids(frs, w) then Some(Leaf(id, Joined(frs, w, id))) else None
  {
    var ids := SortedIds(frs, w);
    var ts := Leaves(frs, w, ids);
    LeavesMembers(frs, w, ids);
    forall t | t in ts ensures t.id in Ids(frs, w) && !IsFilter(t.id) {
    }
    FirstMatchDistinct(ts, id);
    if id in Ids(frs, w) {
      assert Leaf(id, Joined(frs, w, id)) in ts;
    }
  }

  /** A merged dump is a fixed point of merging. */
  lemma MergeIsIdempotent(frs: seq<Fragment>)
    requires AllJoinsFit(frs) && NoFilterIds(frs)
    ensures Gathered(Output(frs)).ok && Output(Gathered(Output(frs)).fragments) == Output(frs)
  {
    var parts := OutputParts(frs, SortedWiphys(frs));
    OutputIsPackets(frs);
    OutputIndices(frs, SortedWiphys(frs));
    GatheredParts(parts);
    var g := KeptAll(parts);
    forall w: U32, id: U16 ensures Joined(g, w, id) == Joined(frs, w, id) && (id in Ids(g, w) <==> id in Ids(frs, w)) {
      OnlyIsStream(parts, w);
      OutputStream(frs, w);
      OutputContent(frs, g, w, id);
    }
    SetsAgree(g, frs);
    OutputDependsOnContent(g, frs);
  }

  lemma SetsAgree(a: seq<Fragment>, b: seq<Fragment>)
    requires forall w: U32, id: U16 :: id in Ids(a, w) <==> id in Ids(b, w)
    ensures Wiphys(a) == Wiphys(b) && forall w: U32 :: Ids(a, w) == Ids(b, w)
  {
    forall f | f in a ensures f.wiphy in Wiphys(b) {
      assert f.id in Ids(a, f.wiphy) && f.id in Ids(b, f.wiphy);
    }
    forall f | f in b ensures f.wiphy in Wiphys(a) {
      assert f.id in Ids(b, f.wiphy) && f.id in Ids(a, f.wiphy);
    }
    forall w: U32 ensures Ids(a, w) == Ids(b, w) {
      assert forall id :: id in Ids(a, w) ==> id in Ids(b, w);
      assert forall id :: id in Ids(b, w) ==> id in Ids(a, w);
    }
  }

  /** The fragments of a dump never carry the three ids used for filtering. */
  lemma {:induction false} GatheredHasNoFilters(packets: seq<seq<Byte>>)
    ensures NoFilterIds(Gathered(packets).fragments)
    ensures forall f :: f in Gathered(packets).fragments ==> f.id != 1 && f.id != 3 && f.id != 153
  {
    if packets != [] && |packets[0]| >= HDRLEN {
      GatheredHasNoFilters(packets[1..]);
      if WiphyOf(packets[0]).Some? {
        KeptHasNoFilters(WiphyOf(packets[0]).value, AllAttributes(packets[0][HDRLEN..]).attrs);
      }
    }
  }

  lemma {:induction false} KeptHasNoFilters(w: U32, ts: seq<Tree>)
    ensures forall f :: f in Kept(w, ts) ==> !IsFilter(f.id)
  {
    if ts != [] {
      KeptHasNoFilters(w, ts[1..]);
    }
  }
}
