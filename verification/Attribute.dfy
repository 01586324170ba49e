/**
 * nl80211 attributes (net/nl80211_attribute.cpp and .h): a 4-byte header holding a 16-bit length and a
 * 16-bit id, a payload, and zero padding up to a multiple of 4.
 *
 * The first half is the wire format as functions on byte strings, the attribute tree that it denotes and
 * the laws between the two. The second half is the code: an object whose buffer is changed in place and
 * lookups that move a cursor over the buffer, each proved against the first half.
 */
module Attribute {
  import opened Bytes

  const NLA_HDRLEN := 4
  const MAX_NLA_LEN := 0xFFFF

  // ----- one attribute on the wire -----

  function NlaLen(d: seq<Byte>): U16
    requires |d| >= NLA_HDRLEN
  {
    GetU16(d, 0)
  }

  function NlaType(d: seq<Byte>): U16
    requires |d| >= NLA_HDRLEN
  {
    GetU16(d, 2)
  }

  /** The header that storing `len` and `id` leaves behind: each keeps only its low 16 bits. */
  function Header(len: nat, id: nat): (h: seq<Byte>)
    ensures |h| == NLA_HDRLEN
    ensures NlaLen(h) == len % 0x1_0000 && NlaType(h) == id % 0x1_0000
  {
    assert GetU16(U16Bytes(len) + U16Bytes(id), 2) == GetU16(U16Bytes(id), 0);
    U16Bytes(len) + U16Bytes(id)
  }

  function Padding(payload: seq<Byte>): seq<Byte> {
    Zeros(Align4(|payload|) - |payload|)
  }

  lemma NoPadding(p: seq<Byte>)
    requires |p| % 4 == 0
    ensures Padding(p) == [] && p + Padding(p) == p
  {
  }

  function Enc(id: nat, payload: seq<Byte>): (d: seq<Byte>)
    ensures |d| == NLA_HDRLEN + Align4(|payload|)
  {
    Header(NLA_HDRLEN + |payload|, id) + payload + Padding(payload)
  }

  /** An attribute that its 16-bit fields can describe. */
  predicate Fits(id: nat, payload: seq<Byte>) {
    id < 0x1_0000 && NLA_HDRLEN + |payload| <= MAX_NLA_LEN
  }

  predicate IsValid(d: seq<Byte>) {
    |d| >= NLA_HDRLEN && Align4(NlaLen(d)) == |d|
  }

  /** IsValid and a length that covers the header: what makes the payload readable. */
  predicate WellFormed(d: seq<Byte>) {
    IsValid(d) && NlaLen(d) >= NLA_HDRLEN
  }

  function PayloadOf(d: seq<Byte>): seq<Byte>
    requires WellFormed(d)
  {
    d[NLA_HDRLEN..NlaLen(d)]
  }

  lemma HeaderIsPrefix(d: seq<Byte>, len: nat, id: nat, rest: seq<Byte>)
    requires d == Header(len, id) + rest
    ensures |d| >= NLA_HDRLEN && NlaLen(d) == len % 0x1_0000 && NlaType(d) == id % 0x1_0000
    ensures d[NLA_HDRLEN..] == rest
  {
  }

  lemma HeaderOnTheWire(len: U16, id: U16)
    ensures Header(len, id) == [len % 256, len / 256, id % 256, id / 256]
  {
  }

  /** On the wire: the 16-bit length, the 16-bit id, low bytes first, the payload, and zeros. */
  lemma OnTheWire(id: U16, payload: seq<Byte>)
    requires Fits(id, payload)
    ensures var d, len := Enc(id, payload), 4 + |payload|;
            && d[0..4] == [len % 256, len / 256, id % 256, id / 256]
            && d[4..len] == payload
            && |d| % 4 == 0 && len <= |d| < len + 4 && forall i :: len <= i < |d| ==> d[i] == 0
  {
    var len := 4 + |payload|;
    HeaderOnTheWire(len, id);
    AlignAdd(4, |payload|);
    assert Enc(id, payload)[0..4] == Header(len, id);
  }

  /** Reading back what was encoded. */
  lemma EncReads(id: nat, payload: seq<Byte>)
    requires Fits(id, payload)
    ensures WellFormed(Enc(id, payload))
    ensures NlaType(Enc(id, payload)) == id && NlaLen(Enc(id, payload)) == NLA_HDRLEN + |payload|
    ensures PayloadOf(Enc(id, payload)) == payload
    ensures Enc(id, payload)[NLA_HDRLEN..] == payload + Padding(payload)
  {
    var d, body := Enc(id, payload), payload + Padding(payload);
    AlignAdd(NLA_HDRLEN, |payload|);
    assert d == Header(NLA_HDRLEN + |payload|, id) + body;
    HeaderIsPrefix(d, NLA_HDRLEN + |payload|, id, body);
    SliceOfDrop(d, NLA_HDRLEN, 0, |payload|);
    assert body[0..|payload|] == payload;
  }

  /** The 16-bit length is the only obstacle: the constructed attribute is valid exactly when its length fits. */
  lemma EncValidIffFits(id: U16, payload: seq<Byte>)
    ensures IsValid(Enc(id, payload)) <==> Fits(id, payload)
  {
    var n := NLA_HDRLEN + |payload|;
    HeaderIsPrefix(Enc(id, payload), n, id, payload + Padding(payload));
    assert Enc(id, payload) == Header(n, id) + (payload + Padding(payload));
    AlignAdd(NLA_HDRLEN, |payload|);
  }

  // ----- merging two attributes -----

  /** What Merge leaves behind: the payloads joined under the first header, padded afresh. */
  function Merged(d: seq<Byte>, other: seq<Byte>): seq<Byte>
    requires WellFormed(d) && WellFormed(other)
  {
    Enc(NlaType(d), PayloadOf(d) + PayloadOf(other))
  }

  /** The merge is a valid attribute, with exactly the joined payload, if and only if the joined length fits 16 bits. */
  lemma MergedValidIffFits(d: seq<Byte>, other: seq<Byte>)
    requires WellFormed(d) && WellFormed(other)
    ensures var joined := PayloadOf(d) + PayloadOf(other);
            && (IsValid(Merged(d, other)) <==> NLA_HDRLEN + |joined| <= MAX_NLA_LEN)
            && (IsValid(Merged(d, other)) ==>
                  && WellFormed(Merged(d, other))
                  && NlaType(Merged(d, other)) == NlaType(d)
                  && PayloadOf(Merged(d, other)) == joined)
  {
    var joined := PayloadOf(d) + PayloadOf(other);
    EncValidIffFits(NlaType(d), joined);
    if Fits(NlaType(d), joined) {
      EncReads(NlaType(d), joined);
    }
  }

  /** Merging does not check the length: two valid attributes of 40000 bytes merge into an invalid one. */
  lemma MergeCanOverflow()
    ensures var a := Enc(1, Zeros(40000)); WellFormed(a) && !IsValid(Merged(a, a))
  {
    var payload := Zeros(40000);
    EncReads(1, payload);
    MergedValidIffFits(Enc(1, payload), Enc(1, payload));
  }

  lemma MergedIsAssociative(a: seq<Byte>, b: seq<Byte>, c: seq<Byte>)
    requires WellFormed(a) && WellFormed(b) && WellFormed(c)
    requires NLA_HDRLEN + |PayloadOf(a) + PayloadOf(b) + PayloadOf(c)| <= MAX_NLA_LEN
    ensures WellFormed(Merged(a, b)) && WellFormed(Merged(b, c))
    ensures Merged(Merged(a, b), c) == Merged(a, Merged(b, c))
  {
    MergedValidIffFits(a, b);
    MergedValidIffFits(b, c);
    assert PayloadOf(a) + (PayloadOf(b) + PayloadOf(c)) == PayloadOf(a) + PayloadOf(b) + PayloadOf(c);
  }

  // ----- walking a run of attributes -----

  /** How a search for an id ends. Stuck is the cursor resting on a foreign header of length 0 forever. */
  datatype Lookup = Missing | Broken | Stuck | Found(attr: seq<Byte>)

  function Find(buf: seq<Byte>, id: U16): Lookup {
    if |buf| < NLA_HDRLEN then Missing else
    var n := Align4(NlaLen(buf));
    if NlaType(buf) == id then
      if n > |buf| then Broken else Found(buf[..n])
    else if n == 0 then Stuck
    else if n > |buf| then Missing
    else Find(buf[n..], id)
  }

  /** No header of length 0 on the way: every search ends. */
  predicate Walkable(buf: seq<Byte>) {
    |buf| < NLA_HDRLEN ||
    var n := Align4(NlaLen(buf));
    n > |buf| || (n > 0 && Walkable(buf[n..]))
  }

  function Prepend<T>(xs: seq<T>, rest: Option<seq<T>>): Option<seq<T>> {
    if rest.None? then None else Some(xs + rest.value)
  }

  lemma PrependTwice<T>(xs: seq<T>, ys: seq<T>, rest: Option<seq<T>>)
    ensures Prepend(xs, Prepend(ys, rest)) == Prepend(xs + ys, rest)
  {
    if rest.Some? {
      assert xs + (ys + rest.value) == xs + ys + rest.value;
    }
  }

  /** The children of a nested attribute, or None when a child overruns the buffer or has length 0. */
  function Children(buf: seq<Byte>): Option<seq<seq<Byte>>> {
    if |buf| < NLA_HDRLEN then Some([]) else
    var n := Align4(NlaLen(buf));
    if n > |buf| || n == 0 then None else Prepend([buf[..n]], Children(buf[n..]))
  }

  /** The tiles cover the buffer with nothing left over. */
  predicate Tiled(buf: seq<Byte>) {
    buf == [] ||
    (|buf| >= NLA_HDRLEN &&
     var n := Align4(NlaLen(buf));
     0 < n <= |buf| && Tiled(buf[n..]))
  }

  /** Every header on the way covers itself: what the kernel always sends. */
  predicate Sound(buf: seq<Byte>) {
    |buf| < NLA_HDRLEN ||
    var n := Align4(NlaLen(buf));
    n > |buf| || (NlaLen(buf) >= NLA_HDRLEN && Sound(buf[n..]))
  }

  lemma SoundSearch(buf: seq<Byte>)
    requires Sound(buf)
    ensures forall id: U16 :: Find(buf, id) != Stuck
    ensures forall id: U16 :: Find(buf, id).Found? ==> WellFormed(Find(buf, id).attr)
  {
    forall id: U16 ensures Find(buf, id) != Stuck && (Find(buf, id).Found? ==> WellFormed(Find(buf, id).attr)) {
      SoundFind(buf, id);
    }
  }

  lemma {:induction false} SoundFind(buf: seq<Byte>, id: U16)
    requires Sound(buf)
    ensures Find(buf, id) != Stuck && (Find(buf, id).Found? ==> WellFormed(Find(buf, id).attr))
  {
    if |buf| >= NLA_HDRLEN && Align4(NlaLen(buf)) <= |buf| {
      var n := Align4(NlaLen(buf));
      assert NlaLen(buf[..n]) == NlaLen(buf);
      SoundFind(buf[n..], id);
    }
  }

  lemma {:induction false} WalkableSearch(buf: seq<Byte>, id: U16)
    ensures Walkable(buf) ==> Find(buf, id) != Stuck
    ensures Find(buf, id) == Missing ==> Walkable(buf)
  {
    if |buf| >= NLA_HDRLEN && 0 < Align4(NlaLen(buf)) <= |buf| {
      WalkableSearch(buf[Align4(NlaLen(buf))..], id);
    }
  }

  /** The cursor gets to offset k over whole attributes with other ids. */
  predicate Reaches(buf: seq<Byte>, id: U16, k: nat) {
    k == 0 ||
    (&& |buf| >= NLA_HDRLEN && NlaType(buf) != id
     && var n := Align4(NlaLen(buf));
        0 < n <= |buf| && n <= k && Reaches(buf[n..], id, k - n))
  }

  predicate ZeroLengthAt(buf: seq<Byte>, id: U16, k: nat) {
    k + NLA_HDRLEN <= |buf| && NlaLen(buf[k..]) == 0 && NlaType(buf[k..]) != id
  }

  lemma {:induction false} WhereStuck(buf: seq<Byte>, id: U16) returns (k: nat)
    requires Find(buf, id) == Stuck
    ensures Reaches(buf, id, k) && ZeroLengthAt(buf, id, k)
  {
    var n := Align4(NlaLen(buf));
    k := 0;
    if n == 0 {
      assert buf[0..] == buf;
    } else {
      var later := WhereStuck(buf[n..], id);
      k := n + later;
      assert buf[n..][later..] == buf[k..];
    }
  }

  lemma {:induction false} StuckThere(buf: seq<Byte>, id: U16, k: nat)
    requires Reaches(buf, id, k) && ZeroLengthAt(buf, id, k)
    ensures Find(buf, id) == Stuck
  {
    if k == 0 {
      assert buf[0..] == buf;
    } else {
      var n := Align4(NlaLen(buf));
      assert buf[n..][k - n..] == buf[k..];
      StuckThere(buf[n..], id, k - n);
    }
  }

  /** A search fails to end exactly when it meets a foreign header of length 0 before the id it looks for. */
  lemma StuckIff(buf: seq<Byte>, id: U16)
    ensures Find(buf, id) == Stuck <==> exists k: nat :: Reaches(buf, id, k) && ZeroLengthAt(buf, id, k)
  {
    if Find(buf, id) == Stuck {
      var k := WhereStuck(buf, id);
    }
    if k: nat :| Reaches(buf, id, k) && ZeroLengthAt(buf, id, k) {
      StuckThere(buf, id, k);
    }
  }

  /** Looking for id 2 never ends when the first header has id 1 and length 0. */
  lemma SearchCanStick()
    ensures Find([0, 0, 1, 0], 2) == Stuck && Children([0, 0, 1, 0]) == None
  {
  }

  lemma {:induction false} ListableIsWalkable(buf: seq<Byte>)
    requires Children(buf).Some?
    ensures Walkable(buf)
    ensures forall c :: c in Children(buf).value ==> IsValid(c)
    ensures var flat := Flatten(Children(buf).value); flat <= buf && |buf| < |flat| + NLA_HDRLEN
  {
    if |buf| >= NLA_HDRLEN {
      var n := Align4(NlaLen(buf));
      ListableIsWalkable(buf[n..]);
      assert buf == buf[..n] + buf[n..];
      assert NlaLen(buf[..n]) == NlaLen(buf);
    }
  }

  lemma WalkPastFirst(first: seq<Byte>, rest: seq<Byte>, id: U16)
    requires IsValid(first) && first != []
    ensures var buf := first + rest;
            && Find(buf, id) == (if NlaType(first) == id then Found(first) else Find(rest, id))
            && Children(buf) == Prepend([first], Children(rest))
            && Walkable(buf) == Walkable(rest)
  {
    var buf := first + rest;
    assert NlaLen(buf) == NlaLen(first) && NlaType(buf) == NlaType(first);
    assert buf[..|first|] == first && buf[|first|..] == rest;
  }

  lemma {:induction false} TiledMeaning(buf: seq<Byte>)
    ensures Tiled(buf) <==> Children(buf).Some? && Flatten(Children(buf).value) == buf
  {
    if |buf| >= NLA_HDRLEN && 0 < Align4(NlaLen(buf)) <= |buf| {
      var n := Align4(NlaLen(buf));
      var first, rest := buf[..n], buf[n..];
      TiledMeaning(rest);
      assert buf == first + rest;
      if Children(rest).Some? {
        FlattenCons(first, Children(rest).value);
        var flat := Flatten(Children(rest).value);
        if first + flat == buf {
          assert flat == (first + flat)[n..];
        }
      }
    }
  }

  lemma {:induction false} TiledAligned(buf: seq<Byte>)
    requires Tiled(buf)
    ensures |buf| % 4 == 0
  {
    if buf != [] {
      var n := Align4(NlaLen(buf));
      TiledAligned(buf[n..]);
      assert |buf| == n + |buf[n..]|;
    }
  }

  /** Appending bytes after complete tiles appends their children. */
  lemma {:induction false} ChildrenAppend(a: seq<Byte>, b: seq<Byte>)
    requires Tiled(a)
    ensures Children(a).Some?
    ensures Children(a + b) == Prepend(Children(a).value, Children(b))
  {
    if a == [] {
      assert a + b == b;
      if Children(b).Some? {
        assert [] + Children(b).value == Children(b).value;
      }
    } else {
      var n := Align4(NlaLen(a));
      var first, rest := a[..n], a[n..];
      assert NlaLen(first) == NlaLen(a);
      assert a + b == first + (rest + b);
      ChildrenAppend(rest, b);
      assert Children(a).value == [first] + Children(rest).value;
      calc {
        Children(a + b);
        { WalkPastFirst(first, rest + b, 0); }
        Prepend([first], Children(rest + b));
        Prepend([first], Prepend(Children(rest).value, Children(b)));
        { PrependTwice([first], Children(rest).value, Children(b)); }
        Prepend([first] + Children(rest).value, Children(b));
      }
    }
  }

  lemma EncJoined(id: nat, p: seq<Byte>, q: seq<Byte>)
    requires |p| % 4 == 0
    ensures Enc(id, p + q)[NLA_HDRLEN..] == p + (q + Padding(q))
  {
    AlignAdd(|p|, |q|);
    assert Padding(p + q) == Padding(q);
    var h := Header(NLA_HDRLEN + |p + q|, id);
    assert h + (p + q) + Padding(q) == h + (p + q + Padding(q));
    assert p + q + Padding(q) == p + (q + Padding(q));
    HeaderIsPrefix(Enc(id, p + q), NLA_HDRLEN + |p + q|, id, p + q + Padding(q));
  }

  /**
   * Merging nested attributes appends their child lists: the first must be made of complete tiles; the
   * second may be anything whose merge still fits, and if its children cannot be listed neither can the merge's.
   */
  lemma MergedChildren(a: seq<Byte>, b: seq<Byte>)
    requires WellFormed(a) && WellFormed(b) && Tiled(PayloadOf(a))
    requires NLA_HDRLEN + |PayloadOf(a) + PayloadOf(b)| <= MAX_NLA_LEN
    ensures var p, q := PayloadOf(a), PayloadOf(b);
            var tail := Children(q + Padding(q));
            && Children(p).Some?
            && Children(Merged(a, b)[NLA_HDRLEN..]) == Prepend(Children(p).value, tail)
  {
    var p, q := PayloadOf(a), PayloadOf(b);
    TiledAligned(p);
    EncJoined(NlaType(a), p, q);
    ChildrenAppend(p, q + Padding(q));
  }

  // ----- attribute trees: what nested attributes denote -----

  /** A flag attribute is a leaf with an empty payload. */
  datatype Tree = Leaf(id: U16, payload: seq<Byte>) | Nest(id: U16, kids: seq<Tree>)

  function Body(t: Tree): seq<Byte>
    decreases t, 0
  {
    match t
    case Leaf(_, payload) => payload
    case Nest(_, kids) => EncodeAll(kids)
  }

  function Encode(t: Tree): (d: seq<Byte>)
    ensures |d| % 4 == 0 && |d| >= NLA_HDRLEN
    decreases t, 1
  {
    Enc(t.id, Body(t))
  }

  function EncodeAll(ts: seq<Tree>): (d: seq<Byte>)
    ensures |d| % 4 == 0
    decreases ts, 2
  {
    if ts == [] then [] else Encode(ts[0]) + EncodeAll(ts[1..])
  }

  predicate TreeFits(t: Tree)
    decreases t, 0
  {
    Fits(t.id, Body(t)) && (t.Nest? ==> AllFit(t.kids))
  }

  predicate AllFit(ts: seq<Tree>)
    decreases ts, 1
  {
    forall t :: t in ts ==> TreeFits(t)
  }

  function FirstMatch(ts: seq<Tree>, id: U16): Option<Tree> {
    if ts == [] then None else if ts[0].id == id then Some(ts[0]) else FirstMatch(ts[1..], id)
  }

  function EncodeEach(ts: seq<Tree>): seq<seq<Byte>> {
    if ts == [] then [] else [Encode(ts[0])] + EncodeEach(ts[1..])
  }

  lemma {:induction false} EncodeAllAppend(ts: seq<Tree>, us: seq<Tree>)
    ensures EncodeAll(ts + us) == EncodeAll(ts) + EncodeAll(us)
  {
    if ts == [] {
      assert ts + us == us;
    } else {
      assert (ts + us)[0] == ts[0] && (ts + us)[1..] == ts[1..] + us;
      EncodeAllAppend(ts[1..], us);
      var head := Encode(ts[0]);
      assert head + (EncodeAll(ts[1..]) + EncodeAll(us)) == head + EncodeAll(ts[1..]) + EncodeAll(us);
    }
  }

  /** Searching or listing encoded siblings sees exactly those siblings, never what is nested inside them. */
  lemma {:induction false} WalkEncoded(ts: seq<Tree>, id: U16)
    requires AllFit(ts)
    ensures Walkable(EncodeAll(ts)) && Tiled(EncodeAll(ts))
    ensures Children(EncodeAll(ts)) == Some(EncodeEach(ts))
    ensures Find(EncodeAll(ts), id) ==
            match FirstMatch(ts, id) case None => Missing case Some(t) => Found(Encode(t))
  {
    if ts != [] {
      WalkEncoded(ts[1..], id);
      assert TreeFits(ts[0]);
      EncReads(ts[0].id, Body(ts[0]));
      WalkPastFirst(Encode(ts[0]), EncodeAll(ts[1..]), id);
    }
  }

  // ----- following a path of nested lookups -----

  /** GetAttribute applied along a path; None as soon as one lookup fails. */
  function Follow(d: seq<Byte>, path: seq<U16>): Option<seq<Byte>>
    requires |d| >= NLA_HDRLEN
    decreases |path|
  {
    if path == [] then Some(d) else
    match Get(d, path[0])
    case None => None
    case Some(child) => Follow(child, path[1..])
  }

  function Get(d: seq<Byte>, id: U16): (r: Option<seq<Byte>>)
    requires |d| >= NLA_HDRLEN
    ensures r.Some? ==> |r.value| >= NLA_HDRLEN
  {
    match Find(d[NLA_HDRLEN..], id)
    case Found(child) => if IsValid(child) then Some(child) else None
    case _ => None
  }

  /** Every search along the path ends. */
  predicate FollowEnds(d: seq<Byte>, path: seq<U16>)
    requires |d| >= NLA_HDRLEN
    decreases |path|
  {
    path == [] ||
    (&& Find(d[NLA_HDRLEN..], path[0]) != Stuck
     && (Get(d, path[0]).Some? ==> FollowEnds(Get(d, path[0]).value, path[1..])))
  }

  /** BelowLeaf: the path goes on into the uninterpreted payload of a leaf. */
  datatype TreeLookup = Reached(tree: Tree) | Absent | BelowLeaf(leaf: Tree, rest: seq<U16>)

  function FollowTree(t: Tree, path: seq<U16>): TreeLookup
    decreases |path|
  {
    if path == [] then Reached(t)
    else if t.Leaf? then BelowLeaf(t, path)
    else match FirstMatch(t.kids, path[0])
      case None => Absent
      case Some(child) => FollowTree(child, path[1..])
  }

  lemma {:induction false} FirstMatchFits(ts: seq<Tree>, id: U16)
    requires AllFit(ts) && FirstMatch(ts, id).Some?
    ensures TreeFits(FirstMatch(ts, id).value)
    ensures FirstMatch(ts, id).value in ts && FirstMatch(ts, id).value.id == id
  {
    if ts[0].id != id {
      FirstMatchFits(ts[1..], id);
    }
  }

  /** Reading one level of an encoded nest is first-match lookup among its children. */
  lemma GetEncoded(t: Tree, id: U16)
    requires TreeFits(t) && t.Nest?
    ensures Find(Encode(t)[NLA_HDRLEN..], id) != Stuck
    ensures Get(Encode(t), id) == match FirstMatch(t.kids, id) case None => None case Some(k) => Some(Encode(k))
  {
    EncReads(t.id, Body(t));
    assert Padding(Body(t)) == [];
    assert Encode(t)[NLA_HDRLEN..] == EncodeAll(t.kids);
    WalkEncoded(t.kids, id);
    if FirstMatch(t.kids, id).Some? {
      FirstMatchFits(t.kids, id);
      EncReads(id, Body(FirstMatch(t.kids, id).value));
    }
  }

  /** The codec inverts: any path of nested lookups in the bytes finds what the same path finds in the tree. */
  lemma {:induction false} FollowEncoded(t: Tree, path: seq<U16>)
    requires TreeFits(t)
    ensures FollowTree(t, path).Reached? ==>
              && TreeFits(FollowTree(t, path).tree)
              && Follow(Encode(t), path) == Some(Encode(FollowTree(t, path).tree))
    ensures FollowTree(t, path) == Absent ==> Follow(Encode(t), path) == None
    ensures FollowTree(t, path).BelowLeaf? ==>
              && FollowTree(t, path).leaf.Leaf?
              && Follow(Encode(t), path) == Follow(Encode(FollowTree(t, path).leaf), FollowTree(t, path).rest)
    ensures FollowEnds(Encode(t), path) <==>
              (FollowTree(t, path).BelowLeaf? ==>
                 FollowEnds(Encode(FollowTree(t, path).leaf), FollowTree(t, path).rest))
    decreases |path|
  {
    if path != [] && t.Nest? {
      GetEncoded(t, path[0]);
      if FirstMatch(t.kids, path[0]).Some? {
        FirstMatchFits(t.kids, path[0]);
        FollowEncoded(FirstMatch(t.kids, path[0]).value, path[1..]);
      }
    }
  }

  // ----- typed values -----

  /** The search for an attribute ends. */
  predicate Ends(d: seq<Byte>, id: U16) {
    |d| >= NLA_HDRLEN && Find(d[NLA_HDRLEN..], id) != Stuck
  }

  /** The search ends, and what it finds has a length that covers its header, so that its payload is a byte range. */
  predicate Legible(d: seq<Byte>, id: U16) {
    Ends(d, id) && (Get(d, id).Some? ==> WellFormed(Get(d, id).value))
  }

  predicate Has(d: seq<Byte>, id: U16)
    requires |d| >= NLA_HDRLEN
  {
    Find(d[NLA_HDRLEN..], id).Found?
  }

  /** GetAttributeValue<vector<uint8_t>>. */
  function GetBytes(d: seq<Byte>, id: U16): Option<seq<Byte>>
    requires |d| >= NLA_HDRLEN
  {
    match Get(d, id)
    case Some(a) => if WellFormed(a) then Some(PayloadOf(a)) else None
    case None => None
  }

  predicate IsValidInt(d: seq<Byte>, width: nat) {
    IsValid(d) && Align4(width) + NLA_HDRLEN == |d| && width + NLA_HDRLEN == NlaLen(d)
  }

  function IntValue(d: seq<Byte>, width: nat): (v: nat)
    requires IsValidInt(d, width)
    ensures v < Pow256(width)
  {
    FromLEBound(d[NLA_HDRLEN..NLA_HDRLEN + width]);
    FromLE(d[NLA_HDRLEN..NLA_HDRLEN + width])
  }

  /** GetAttributeValue<T> for an integer type of the given width. */
  function GetInt(d: seq<Byte>, id: U16, width: nat): Option<nat>
    requires |d| >= NLA_HDRLEN
  {
    match Find(d[NLA_HDRLEN..], id)
    case Found(child) => if IsValidInt(child, width) then Some(IntValue(child, width)) else None
    case _ => None
  }

  function IntLeaf(id: U16, value: nat, width: nat): Tree {
    Leaf(id, LE(value, width))
  }

  /** A typed read looks only at the first match, and succeeds exactly when that match has the type's width. */
  lemma GetIntEncoded(t: Tree, id: U16, width: nat)
    requires TreeFits(t) && t.Nest?
    ensures GetInt(Encode(t), id, width) ==
            match FirstMatch(t.kids, id)
            case None => None
            case Some(k) => if |Body(k)| == width then Some(FromLE(Body(k))) else None
  {
    GetEncoded(t, id);
    if FirstMatch(t.kids, id).Some? {
      FirstMatchFits(t.kids, id);
      EncReads(id, Body(FirstMatch(t.kids, id).value));
    }
  }

  /** Integers survive the round trip. */
  lemma IntRoundTrip(t: Tree, id: U16, value: nat, width: nat)
    requires TreeFits(t) && t.Nest? && value < Pow256(width)
    requires FirstMatch(t.kids, id) == Some(IntLeaf(id, value, width))
    ensures GetInt(Encode(t), id, width) == Some(value)
  {
    GetIntEncoded(t, id, width);
    FromLEofLE(value, width);
  }

  /** Byte vectors survive it too: the first match's payload comes back as it was, without padding. */
  lemma BytesRoundTrip(t: Tree, id: U16)
    requires TreeFits(t) && t.Nest?
    ensures GetBytes(Encode(t), id) == match FirstMatch(t.kids, id) case None => None case Some(k) => Some(Body(k))
  {
    GetEncoded(t, id);
    if FirstMatch(t.kids, id).Some? {
      FirstMatchFits(t.kids, id);
      EncReads(id, Body(FirstMatch(t.kids, id).value));
    }
  }

  function Trim(s: seq<Byte>): seq<Byte> {
    if s != [] && s[|s| - 1] == 0 then Trim(s[..|s| - 1]) else s
  }

  /** A string is stored with one trailing NUL and read with all trailing NULs dropped. */
  lemma StringRoundTrip(id: U16, text: seq<Byte>)
    requires Fits(id, text + [0])
    ensures WellFormed(Enc(id, text + [0]))
    ensures Trim(PayloadOf(Enc(id, text + [0]))) == text <==> (text == [] || text[|text| - 1] != 0)
  {
    EncReads(id, text + [0]);
    TrimTerminator(text);
  }

  lemma TrimTerminator(text: seq<Byte>)
    ensures Trim(text + [0]) == Trim(text)
    ensures Trim(text) == text <==> (text == [] || text[|text| - 1] != 0)
  {
    assert (text + [0])[..|text|] == text;
    TrimEnds(text);
  }

  /** What is dropped are exactly the trailing zeros. */
  lemma {:induction false} TrimEnds(s: seq<Byte>)
    ensures |Trim(s)| <= |s| && Trim(s) == s[..|Trim(s)|]
    ensures forall i :: |Trim(s)| <= i < |s| ==> s[i] == 0
    ensures Trim(s) == [] || Trim(s)[|Trim(s)| - 1] != 0
    ensures Trim(s) == s <==> s == [] || s[|s| - 1] != 0
  {
    if s != [] && s[|s| - 1] == 0 {
      TrimEnds(s[..|s| - 1]);
    }
  }

  // ----- the code -----

  /** The search loop: a cursor that steps over whole attributes. */
  method GetAttributeImpl(buf: seq<Byte>, id: U16) returns (ok: bool, start: nat, end: nat)
    requires Find(buf, id) != Stuck
    ensures ok <==> Find(buf, id).Found?
    ensures ok ==> start <= end <= |buf| && Find(buf, id) == Found(buf[start..end])
  {
    ok, start, end := false, 0, 0;
    var ptr, rest := 0, buf;  // rest is what lies at and after ptr
    ghost var goal := Find(buf, id);
    while ptr + NLA_HDRLEN <= |buf|
      invariant ptr <= |buf| ==> rest == buf[ptr..] && goal == Find(rest, id)
      invariant ptr > |buf| ==> goal == Missing
      decreases |buf| - ptr
    {
      var size := Align4(NlaLen(rest));
      if NlaType(rest) == id {
        if ptr + size > |buf| {
          return;
        }
        assert rest[..size] == buf[ptr..ptr + size];
        return true, ptr, ptr + size;
      }
      ptr := ptr + size;
      rest := if size <= |rest| then rest[size..] else [];
    }
  }

  /** What appending a child to a nested attribute's buffer does: the bytes and the 16-bit length grow. */
  function Appended(d: seq<Byte>, child: seq<Byte>): seq<Byte>
    requires |d| >= NLA_HDRLEN
  {
    PutU16(d + child, 0, NlaLen(d) + |child|)
  }

  /** This holds of any length, since both sides keep its low 16 bits. */
  lemma AppendedIsEncode(id: U16, kids: seq<Tree>, kid: Tree)
    ensures Appended(Encode(Nest(id, kids)), Encode(kid)) == Encode(Nest(id, kids + [kid]))
  {
    EncodeAllAppend(kids, [kid]);
    assert EncodeAll([kid]) == Encode(kid) + EncodeAll([]);
    assert EncodeAll(kids + [kid]) == EncodeAll(kids) + Encode(kid);
    AppendedIsEnc(id, EncodeAll(kids), Encode(kid));
  }

  lemma AppendedIsEnc(id: U16, p: seq<Byte>, q: seq<Byte>)
    requires |p| % 4 == 0 && |q| % 4 == 0
    ensures Appended(Enc(id, p), q) == Enc(id, p + q)
  {
    var r := p + q;
    assert |r| == |p| + |q| && |r| % 4 == 0;
    EncAligned(id, p);
    EncAligned(id, r);
    Grown(Enc(id, p), NLA_HDRLEN + |p|, NLA_HDRLEN + |r|, id, p, q, r);
  }

  /** Appending bytes and storing the low 16 bits of the new length. */
  lemma Grown(d: seq<Byte>, len: nat, total: nat, id: U16, p: seq<Byte>, q: seq<Byte>, r: seq<Byte>)
    requires d == Header(len, id) + p && r == p + q && NlaLen(d) == len % 0x1_0000 && total == len + |q|
    ensures Appended(d, q) == Header(total, id) + r
  {
    ConcatAssoc(Header(len, id), p, q);
    Relength(len, NlaLen(d) + |q|, id, r);
    HeaderWraps(NlaLen(d) + |q|, len / 0x1_0000, id);
  }

  lemma HeaderWraps(len: nat, q: nat, id: U16)
    ensures Header(len, id) == Header(len + 0x1_0000 * q, id)
  {
    U16BytesWraps(len, q);
  }

  lemma EncAligned(id: U16, p: seq<Byte>)
    requires |p| % 4 == 0
    ensures Enc(id, p) == Header(NLA_HDRLEN + |p|, id) + p
    ensures NlaLen(Enc(id, p)) == (NLA_HDRLEN + |p|) % 0x1_0000
  {
    assert Padding(p) == [];
    HeaderIsPrefix(Enc(id, p), NLA_HDRLEN + |p|, id, p);
  }

  lemma AlignedReads(id: U16, p: seq<Byte>)
    requires Fits(id, p) && |p| % 4 == 0
    ensures WellFormed(Enc(id, p)) && NlaType(Enc(id, p)) == id && PayloadOf(Enc(id, p)) == p
    ensures Enc(id, p)[NLA_HDRLEN..] == p
  {
    EncReads(id, p);
    assert p + Padding(p) == p;
  }

  lemma Relength(len: nat, newLen: nat, id: U16, rest: seq<Byte>)
    ensures PutU16(Header(len, id) + rest, 0, newLen) == Header(newLen, id) + rest
  {
  }

  class NL80211Attr {
    var data: seq<Byte>

    constructor (id: U16, raw: seq<Byte>)
      ensures data == Enc(id, raw)
    {
      data := [];
      new;
      InitHeaderAndResize(id, |raw|);
      data := data[..NLA_HDRLEN] + raw + data[NLA_HDRLEN + |raw|..];
    }

    constructor FromBuffer(buffer: seq<Byte>)
      ensures data == buffer
    {
      data := buffer;
    }

    method InitHeaderAndResize(id: U16, payloadLength: nat)
      modifies this
      ensures |data| == NLA_HDRLEN + Align4(payloadLength)
      ensures data[..NLA_HDRLEN] == Header(NLA_HDRLEN + payloadLength, id)
      ensures data[NLA_HDRLEN..] == Resize(old(data), NLA_HDRLEN + Align4(payloadLength))[NLA_HDRLEN..]
    {
      data := Resize(data, NLA_HDRLEN + Align4(payloadLength));
      data := PutU16(data, 2, id);
      data := PutU16(data, 0, NLA_HDRLEN + payloadLength);
    }

    method Merge(other: NL80211Attr) returns (ok: bool)
      requires other != this && WellFormed(data)
      requires IsValid(other.data) ==> WellFormed(other.data)
      modifies this
      ensures ok <==> IsValid(other.data) && NlaType(old(data)) == NlaType(other.data)
      ensures data == if ok then Merged(old(data), other.data) else old(data)
    {
      if !IsValid(other.data) || NlaType(data) != NlaType(other.data) {
        return false;
      }
      var ourLen, otherLen := NlaLen(data), NlaLen(other.data);
      var total := ourLen + otherLen - NLA_HDRLEN;
      data := PutU16(data, 0, total);
      data := Resize(data, ourLen);
      data := data + other.data[NLA_HDRLEN..otherLen];
      data := Resize(data, Align4(total));
      MergeSteps(old(data), other.data, data);
      return true;
    }

    method AddAttribute(child: NL80211Attr)
      requires child != this && |data| >= NLA_HDRLEN
      modifies this
      ensures data == Appended(old(data), child.data)
    {
      data := data + child.data;
      data := PutU16(data, 0, NlaLen(data) + |child.data|);
    }

    method AddFlagAttribute(id: U16)
      requires |data| >= NLA_HDRLEN
      modifies this
      ensures data == Appended(old(data), Enc(id, []))
    {
      data := Resize(data, |data| + NLA_HDRLEN);
      var flag := |data| - NLA_HDRLEN;
      data := PutU16(data, flag + 2, id);
      data := PutU16(data, flag, NLA_HDRLEN);
      assert data == old(data) + Enc(id, []);
      data := PutU16(data, 0, NlaLen(data) + NLA_HDRLEN);
    }

    method HasAttribute(id: U16) returns (has: bool)
      requires Ends(data, id)
      ensures has <==> Find(data[NLA_HDRLEN..], id).Found?
    {
      var start, end;
      has, start, end := GetAttributeImpl(data[NLA_HDRLEN..], id);
    }

    method GetAttribute(id: U16) returns (r: Option<seq<Byte>>)
      requires Ends(data, id)
      ensures r == Get(data, id)
    {
      var ok, start, end := GetAttributeImpl(data[NLA_HDRLEN..], id);
      if !ok || !IsValid(data[NLA_HDRLEN..][start..end]) {
        return None;
      }
      return Some(data[NLA_HDRLEN..][start..end]);
    }

    method GetIntValue(id: U16, width: nat) returns (r: Option<nat>)
      requires Ends(data, id)
      ensures r == GetInt(data, id, width)
    {
      var ok, start, end := GetAttributeImpl(data[NLA_HDRLEN..], id);
      if !ok || !IsValidInt(data[NLA_HDRLEN..][start..end], width) {
        return None;
      }
      return Some(IntValue(data[NLA_HDRLEN..][start..end], width));
    }

    method GetBytesValue(id: U16) returns (r: Option<seq<Byte>>)
      requires Legible(data, id)
      ensures r == GetBytes(data, id)
    {
      var attr := GetAttribute(id);
      return if attr.None? then None else Some(PayloadOf(attr.value));
    }

    /** Terminates on every buffer, whatever the lengths inside it say. */
    method GetListOfNestedAttributes() returns (r: Option<seq<seq<Byte>>>)
      requires |data| >= NLA_HDRLEN
      ensures r == Children(data[NLA_HDRLEN..])
      ensures r.Some? ==> forall c :: c in r.value ==> IsValid(c)
      ensures r.Some? ==> Flatten(r.value) <= data[NLA_HDRLEN..] && |data| < |Flatten(r.value)| + 2 * NLA_HDRLEN
    {
      var buf := data[NLA_HDRLEN..];
      var ptr, list, rest := 0, [], buf;  // rest is what lies at and after ptr
      ghost var goal := Children(buf);
      assert goal.Some? ==> [] + goal.value == goal.value;
      while ptr + NLA_HDRLEN <= |buf|
        invariant ptr + |rest| == |buf|
        invariant goal == Prepend(list, Children(rest))
        decreases |rest|
      {
        var size := Align4(NlaLen(rest));
        if size > |rest| {
          return None;
        }
        var child := rest[..size];
        ListStep(rest, list);
        if !IsValid(child) {
          return None;
        }
        list, ptr, rest := list + [child], ptr + size, rest[size..];
      }
      assert list + [] == list;
      ListableIsWalkable(buf);
      return Some(list);
    }

    /** Trailing zeros are dropped one at a time. */
    method GetStringValue() returns (text: seq<Byte>)
      requires WellFormed(data)
      ensures text == Trim(PayloadOf(data))
    {
      var length := NlaLen(data) - NLA_HDRLEN;
      assert PayloadOf(data)[..length] == PayloadOf(data);
      while length > 0 && data[NLA_HDRLEN + length - 1] == 0
        invariant 0 <= length <= |PayloadOf(data)|
        invariant Trim(PayloadOf(data)) == Trim(PayloadOf(data)[..length])
      {
        assert PayloadOf(data)[..length][..length - 1] == PayloadOf(data)[..length - 1];
        length := length - 1;
      }
      text := data[NLA_HDRLEN..NLA_HDRLEN + length];
    }
  }

  lemma MergeSteps(d: seq<Byte>, other: seq<Byte>, result: seq<Byte>)
    requires WellFormed(d) && WellFormed(other)
    requires var total := NlaLen(d) + NlaLen(other) - NLA_HDRLEN;
             result == Resize(Resize(PutU16(d, 0, total), NlaLen(d)) + PayloadOf(other), Align4(total))
    ensures result == Merged(d, other)
  {
    var total := NlaLen(d) + NlaLen(other) - NLA_HDRLEN;
    KeptPart(d, total);
    var header := Header(total, NlaType(d));
    ConcatAssoc(header, PayloadOf(d), PayloadOf(other));
    PadEnc(NlaType(d), PayloadOf(d) + PayloadOf(other));
  }

  lemma KeptPart(d: seq<Byte>, total: nat)
    requires WellFormed(d)
    ensures Resize(PutU16(d, 0, total), NlaLen(d)) == Header(total, NlaType(d)) + PayloadOf(d)
  {
    HeaderAgain(d);
    Relength(NlaLen(d), total, NlaType(d), d[NLA_HDRLEN..]);
  }

  lemma PadEnc(id: U16, p: seq<Byte>)
    ensures Resize(Header(NLA_HDRLEN + |p|, id) + p, Align4(NLA_HDRLEN + |p|)) == Enc(id, p)
  {
    assert Align4(NLA_HDRLEN + |p|) == NLA_HDRLEN + Align4(|p|);
  }

  lemma HeaderAgain(d: seq<Byte>)
    requires |d| >= NLA_HDRLEN
    ensures d == Header(NlaLen(d), NlaType(d)) + d[NLA_HDRLEN..]
  {
    var h := Header(NlaLen(d), NlaType(d));
    assert h[0] == d[0] && h[1] == d[1] && h[2] == d[2] && h[3] == d[3];
    assert h == d[..NLA_HDRLEN];
  }

  lemma ListStep(rest: seq<Byte>, list: seq<seq<Byte>>)
    requires |rest| >= NLA_HDRLEN && Align4(NlaLen(rest)) <= |rest|
    ensures var size := Align4(NlaLen(rest));
            var child := rest[..size];
            && (IsValid(child) <==> size > 0)
            && Prepend(list, Children(rest))
               == if size == 0 then None else Prepend(list + [child], Children(rest[size..]))
  {
    var size := Align4(NlaLen(rest));
    if size > 0 {
      assert NlaLen(rest[..size]) == NlaLen(rest);
      PrependTwice(list, [rest[..size]], Children(rest[size..]));
    }
  }
}
