# wificond: a verified model

wificond is the daemon between the Android framework and the kernel's nl80211 interface. This project models the
parts of it that carry state or build and parse bytes, and proves what they are for.

| file | what it models |
|---|---|
| `Bytes.dfy` | byte strings, little-endian integers, 4-byte alignment, traversal in increasing order |
| `Attribute.dfy` | nl80211 attributes: the wire format, the attribute tree it denotes, merging, and the code that builds and walks buffers |
| `Packet.dfy` | nl80211 packets (sections 2.3.2 and 2.3.2.2 of RFC 3549) |
| `SplitDump.dfy` | reassembly of a wiphy dump that the kernel split over many packets |
| `Bands.dfy` | parsing band information out of a wiphy packet |
| `NetlinkManager.dfy` | sequence numbers, the handler table, the receive loop, waiting for replies |
| `Server.dfy` | the registry of interfaces, wiphys and bands, with the event subscriptions of interface objects |
| `ScanUtils.dfy` | the SSID element parser and the scheduled-scan request |
| `Scanner.dfy` | scan plans, the PNO request, the scan and PNO state machine |
| `ClientInterface.dfy` | transmission of management frames |

Each module is laid out in the same way. Functions on values say what is meant: an attribute tree and its encoding, a
fold over messages, a transition of a state machine. Lemmas prove the laws on those functions for every input or every
run. Where the source changes things in place, a class with the same fields and methods follows, and each method's
`ensures` ties the new state to the functions, so that the laws hold of the code. What the kernel answers, what poll
returns and how much time passes are parameters.

`dafny verify dfyconfig.toml` checks everything.

Most operations are described twice: once in the shape of the code, which the methods are proved to compute, and once
from outside, by bytes, positions, literal numbers or the history of operations. A lemma for all inputs joins the two.

## The main results

- **The codec inverts.** Following any path of nested lookups in the bytes of an attribute tree agrees with first-match
  lookup in the tree (`FollowEncoded`); integers, byte vectors and strings come back (`IntRoundTrip`, `BytesRoundTrip`,
  `StringRoundTrip`). A search in arbitrary bytes fails to end exactly when it meets a foreign header of length 0
  (`StuckIff`).
- **Reassembly does not depend on the split.** `MergePacketsForSplitWiphyDump` computes `Output`, which is a function of
  the joined fragments alone and determines them (`SplitDoesNotMatter`, `FragmentCutDoesNotMatter`,
  `DumpsAgreeIff`, `MergeIsIdempotent`). What comes out is described from the packets that went in (`DumpContent`,
  `OutputOrder`, `OutputPacket`).
- **Band parsing is a homomorphism.** Parsing the reassembled dump combines what each fragment says on its own
  (`MergedBands`, `DumpBands`), and the channels of a packet are partitioned over the frequency lists
  (`PacketPartition`). Lists, flags and stream counts are read off the attributes (`PacketLists`, `PacketFlags`,
  `PacketStreams`).
- **The receive loop is a fold over messages** (`ReceiveIsFold`) that does not see how a reply is grouped into
  datagrams (`MultipartCollected`, `GroupingIff`), and no request leaves a handler behind (`WaitRetires`,
  `WaitCollects`).
- **No handler dangles on any run** (`NoDanglingRun`). Every live interface stays subscribed along a run if and only if
  indices are free when taken (`SubscribedRun`), the registry stays consistent if and only if teardown matches the role
  (`ConsistentRun`), and a band leaves a wiphy only with the wiphy's last interface (`BandsAreSticky`).
- **Scan plans survive 32-bit arithmetic** (`PlansSoundIff`), from the arithmetic down to what is read back from the
  emitted bytes (`EmittedPlans`); match sets, SSIDs and frequencies are read back too (`MatchSetsReadBack`,
  `ScanSsidsReadBack`, `FreqsReadBack`).
- **Counting over all runs**: ENODEV failures and the abort (`Scanner.HistoryIs`), PNO failure reports (`PnoFailedBounded`,
  `NoFailureAfterStop`), outcomes of management frames (`AtMostOneOutcome`, `SupersededStaysSilent`,
  `AcceptedCompletes`). Both machines are functions of their history (`Scanner.HistoryIs`, `ClientInterface.HistoryIs`).

Properties that the code does not have without a condition, each with a lemma at a failing input:

- "Every live interface is subscribed" fails when a live interface is re-created: the new object subscribes before the
  old one is destroyed, and the old one's destructor takes the entries away (`RecreateLosesSubscriptions`, server.cpp
  lines 197-207). It holds after a creation exactly when no live interface has the new index.
- "The wiphy map names exactly the live interfaces" fails when tearDownApInterface is called with the name of a live
  client, or the reverse: the entry is erased although the interface stays (`CrossTeardownLosesName`, server.cpp lines
  163-167). `ConsistentStep` gives the exact condition.
- "Chosen scan plans respect the device's limit" fails for a multiplier of 0 (`ZeroMultiplierUnsound`);
  `PlansSoundIff` gives the exact condition.
- "Looking up an attribute terminates" fails on a header of length 0 (`SearchCanStick`, net/nl80211_attribute.cpp line
  88), although the list walkers reject such a header. `StuckIff` gives the exact condition.
- "Merging valid attributes gives a valid attribute" fails when the joined length does not fit 16 bits, which the code
  does not check (`MergeCanOverflow`). `MergedValidIffFits` gives the exact condition.
- "The grouping of messages into datagrams does not matter" fails when a datagram holds, behind an end marker or behind
  a message that nobody waits for, a broadcast or a message that somebody waits for (`SharedDatagramLosesMessage`).
  `DatagramIsFoldIff` shows that this is exactly when one datagram differs from its messages taken one by one, and
  `GroupingIff` the same for a sequence of datagrams, state by state.

## Model

| member | source | states |
|---|---|---|
| `Attribute.EncReads` | net/nl80211_attribute.cpp:35-61 | an encoded attribute is valid and gives back its id, its length and its payload without padding |
| `Attribute.OnTheWire` | net/nl80211_attribute.cpp:35-48 | byte by byte: length and id with low bytes first, the payload, then zeros up to a multiple of 4 |
| `Attribute.EncValidIffFits` | net/nl80211_attribute.cpp:42-61 | the constructed attribute passes IsValid if and only if header and payload fit the 16-bit length |
| `Attribute.MergedValidIffFits` | net/nl80211_attribute.cpp:94-125 | the merge is valid, keeps the id and carries exactly the joined payload, if and only if the joined length fits 16 bits |
| `Attribute.MergeCanOverflow` | net/nl80211_attribute.cpp:94-125 | two concrete valid attributes whose merge is not valid |
| `Attribute.MergedIsAssociative` | net/nl80211_attribute.cpp:94-125 | merging three attributes gives the same bytes whichever pair is merged first |
| `Attribute.MergedChildren` | net/nl80211_attribute.cpp:94-125 | the child list of a merge of nested attributes is the first child list followed by the second, and cannot be listed when the second cannot |
| `Attribute.StuckIff` | net/nl80211_attribute.cpp:67-91 | on any bytes, a search does not end if and only if it reaches, over whole foreign attributes, a foreign header of length 0 |
| `Attribute.SearchCanStick` | net/nl80211_attribute.cpp:67-91 | a concrete 4-byte buffer on which a search does not end while listing fails |
| `Attribute.WalkableSearch` | net/nl80211_attribute.cpp:67-91 | without headers of length 0 every search ends; a search that ends without a match has seen none |
| `Attribute.SoundSearch` | net/nl80211_attribute.cpp:67-91 | when every header on the way covers itself, every search ends and what it finds has a readable payload |
| `Attribute.ListableIsWalkable` | net/nl80211_attribute.cpp:226-247 | a successful listing gives valid children that concatenate to the payload except for fewer than 4 trailing bytes |
| `Attribute.TiledMeaning` | net/nl80211_attribute.cpp:226-247 | attributes cover a buffer exactly if and only if listing succeeds and the children concatenate to the buffer |
| `Attribute.ChildrenAppend` | net/nl80211_attribute.cpp:226-247 | listing complete attributes followed by any bytes appends the two lists |
| `Attribute.WalkEncoded` | net/nl80211_attribute.cpp:67-91 | searching or listing encoded siblings sees exactly those siblings, first match first, never what is nested inside them |
| `Attribute.GetEncoded` | net/nl80211_attribute.cpp:208-224 | reading one level of an encoded nest is first-match lookup among its children, and it ends |
| `Attribute.FollowEncoded` | net/nl80211_attribute.cpp:67-224 | for every tree that fits and every path, nested GetAttribute on the bytes finds the encoding of what the path finds in the tree, nothing when the path leads nowhere, and inside the bytes of a leaf whatever the rest of the path finds in that leaf alone; every search on the way ends, except that below a leaf this depends on the leaf's bytes |
| `Attribute.GetIntEncoded` | net/nl80211_attribute.h:86-104 | a typed integer read looks at the first match alone and succeeds if and only if that match has exactly the width of the type |
| `Attribute.IntRoundTrip` | net/nl80211_attribute.h:67-104 | an integer of any width comes back unchanged |
| `Bytes.FromLESnoc` | net/nl80211_attribute.h:102-104 | the value read from an integer payload is the sum of its bytes, the i-th one weighted by 256 to the power of i: no bytes give 0, one more byte adds its weight |
| `Bytes.LEBytes` | net/nl80211_attribute.h:67-74 | a 32-bit integer is stored with its low byte first |
| `Attribute.BytesRoundTrip` | net/nl80211_attribute.cpp:128-142 | a byte vector comes back unchanged, without padding |
| `Attribute.StringRoundTrip` | net/nl80211_attribute.cpp:145-169 | a string comes back unchanged if and only if it does not end in NUL |
| `Attribute.TrimEnds` | net/nl80211_attribute.cpp:159-169 | what is dropped from a string payload is exactly its trailing zeros |
| `Attribute.AppendedIsEncode` | net/nl80211_attribute.cpp:180-188 | adding a child to an encoded nest gives the encoding of the nest with that child last, for any length since both keep its low 16 bits |
| `Attribute.GetAttributeImpl` | net/nl80211_attribute.cpp:67-91 | the cursor loop ends and returns the range of the first match, or fails exactly when the match is missing or overruns the buffer |
| `Attribute.NL80211Attr.constructor` | net/nl80211_attribute.cpp:35-40 | the buffer is the encoding of id and payload |
| `Attribute.NL80211Attr.InitHeaderAndResize` | net/nl80211_attribute.cpp:42-48 | the buffer has aligned size, the new header, the old bytes behind it and zeros after them |
| `Attribute.NL80211Attr.Merge` | net/nl80211_attribute.cpp:94-125 | fails and changes nothing exactly on an invalid or foreign attribute; otherwise the in-place edits leave the merged attribute |
| `Attribute.NL80211Attr.AddAttribute` | net/nl80211_attribute.cpp:180-188 | the child's bytes are appended and the 16-bit length grows by their number |
| `Attribute.NL80211Attr.AddFlagAttribute` | net/nl80211_attribute.cpp:190-200 | the same as adding an attribute with empty payload |
| `Attribute.NL80211Attr.HasAttribute` | net/nl80211_attribute.cpp:202-206 | true exactly when the search finds a complete match |
| `Attribute.NL80211Attr.GetAttribute` | net/nl80211_attribute.cpp:208-224 | returns the first match if it is valid |
| `Attribute.NL80211Attr.GetIntValue` | net/nl80211_attribute.h:174-187 | returns the first match's value if its width is that of the type |
| `Attribute.NL80211Attr.GetBytesValue` | net/nl80211_attribute.cpp:137-142 | returns the first match's payload |
| `Attribute.NL80211Attr.GetListOfNestedAttributes` | net/nl80211_attribute.cpp:226-247 | ends on every buffer; on success the children are valid and concatenate to the payload except for fewer than 4 bytes; fails exactly on a child of length 0 or one that overruns |
| `Attribute.NL80211Attr.GetStringValue` | net/nl80211_attribute.cpp:159-169 | returns the payload without its trailing NULs |
| `Packet.ExtendedIsPacked` | net/nl80211_packet.cpp:170-178 | adding an attribute keeps the length field equal to the buffer size (modulo 32 bits) and the rest of the header unchanged |
| `Packet.RequestReads` | net/nl80211_packet.cpp:36-133 | a built packet is valid and its getters return what it was built from, flags included |
| `Packet.RequestOnTheWire` | net/nl80211_packet.cpp:36-57 | byte by byte: length, type, flags, sequence number, port, command, version 1 and two zeros, low bytes first |
| `Packet.ErrorCodeReads` | net/nl80211_packet.cpp:131-133 | an error stored as a negative number is read with its sign turned |
| `Packet.AllAttributesEncoded` | net/nl80211_packet.cpp:218-235 | a packet built of attributes lists as exactly those ids and payloads in order |
| `Packet.ListingWithTail` | net/nl80211_packet.cpp:218-235 | up to three bytes behind the attributes are ignored; a header of length 0 or one that overruns fails the listing and keeps what came before |
| `Packet.ListThenAddIsIdentity` | net/nl80211_packet.cpp:170-235 | listing the attributes of a built packet and adding them again reproduces the packet byte for byte |
| `Packet.NL80211Packet.constructor` | net/nl80211_packet.cpp:36-57 | the field-by-field writes leave a request header with the given fields and no attributes |
| `Packet.NL80211Packet.AddFlag` | net/nl80211_packet.cpp:145-148 | the flags field becomes the bitwise or, everything else stays |
| `Packet.FlagsReplaced` | net/nl80211_packet.cpp:145-148 | changing the flags of a built packet gives the packet built with those flags: no other field and no attribute changes |
| `Bytes.BitOrSets` | net/nl80211_packet.cpp:145-148 | a bit is set in the or of two numbers if and only if it is set in one of them |
| `Packet.NL80211Packet.AddAttribute` | net/nl80211_packet.cpp:170-178 | the attribute's bytes are appended and the length field grows by their number |
| `Packet.NL80211Packet.AddFlagAttribute` | net/nl80211_packet.cpp:180-190 | the same as adding an attribute with empty payload |
| `Packet.NL80211Packet.GetAttribute` | net/nl80211_packet.cpp:199-216 | returns the first match among the packet's attributes if it is valid |
| `Packet.NL80211Packet.GetU32Value` | net/nl80211_packet.h:124-137 | returns the first match's value if its width is 4 |
| `Packet.NL80211Packet.GetAllAttributes` | net/nl80211_packet.cpp:218-235 | ends on every packet; returns the attributes in order, those before the first broken one on failure |
| `SplitDump.MergePacketsForSplitWiphyDump` | net/netlink_utils.cpp:804-848 | fails exactly when a packet has no wiphy index or a broken attribute; otherwise emits, for each wiphy with an attribute left after filtering and in ascending order, one packet with each id once, in ascending order, and its joined payload |
| `SplitDump.Collect` | net/netlink_utils.cpp:809-835 | the first loop fills the table with exactly the ids of each wiphy and the arrival-order concatenation of their fragments |
| `SplitDump.Absorb` | net/netlink_utils.cpp:821-833 | filing one fragment keeps the table equal to the joined fragments so far |
| `SplitDump.MergeInto` | net/netlink_utils.cpp:830-831 | extending a stored attribute by a fragment stores the concatenation |
| `SplitDump.Emit` | net/netlink_utils.cpp:837-846 | the second loop emits the specified packets in ascending order of wiphy |
| `SplitDump.BuildPacket` | net/netlink_utils.cpp:838-844 | one output packet: the wiphy index, then the attributes in ascending order |
| `SplitDump.OutputReads` | net/netlink_utils.cpp:837-846 | any lookup in an output packet finds the joined fragments of that id or nothing; listing gives each id once |
| `SplitDump.OutputDependsOnContent` | net/netlink_utils.cpp:804-848 | the output is determined by which attributes are present and by their joined payloads |
| `SplitDump.OutputIffContent` | net/netlink_utils.cpp:804-848 | two dumps merge to the same packets if and only if they have the same attributes with the same joined payloads: merging loses nothing but the split |
| `SplitDump.IndexReads` | net/netlink_utils.cpp:811-815 | the wiphy index is found wherever it stands among the packet's attributes, if and only if its first occurrence is 4 bytes wide |
| `SplitDump.GatheredParts` | net/netlink_utils.cpp:809-835 | a dump of packets with any attributes is read completely if and only if every packet has a wiphy index, and then as exactly the unfiltered attributes in arrival order |
| `SplitDump.GatheredOkIff` | net/netlink_utils.cpp:810-819 | the dump is read to its end if and only if each packet has an index and lists to its end |
| `SplitDump.DumpContent` | net/netlink_utils.cpp:809-835 | of ids 1, 3 and 153 nothing is collected; any other id is collected for a wiphy if and only if a packet of that wiphy carries it, with the bodies of all its occurrences joined in arrival order |
| `SplitDump.OutputOrder` | net/netlink_utils.cpp:837-846 | one packet for each wiphy with something collected, in strictly ascending order of wiphy |
| `SplitDump.OutputPacket` | net/netlink_utils.cpp:838-844 | each is a NEW_WIPHY message that lists the wiphy index and then, in strictly ascending order, exactly the collected ids with their joined payloads |
| `SplitDump.PartsSearchable` | net/netlink_utils.cpp:809-835 | every such dump meets the requirements of the merger on its packets |
| `SplitDump.DumpsAgreeIff` | net/netlink_utils.cpp:804-848 | two dumps, packets given, merge to the same packets if and only if they give every wiphy the same unfiltered ids with the same joined payloads |
| `SplitDump.SplitDoesNotMatter` | net/netlink_utils.cpp:804-848 | two dumps that give each wiphy the same unfiltered attributes in the same order merge to the same packets, however these are spread over packets and interleaved and wherever the filter attributes stand |
| `SplitDump.FragmentCutDoesNotMatter` | net/netlink_utils.cpp:828-831 | cutting one payload into two fragments anywhere in a dump does not change the output |
| `SplitDump.MergeIsIdempotent` | net/netlink_utils.cpp:804-848 | merging a merged dump reproduces it |
| `SplitDump.GatheredHasNoFilters` | net/netlink_utils.cpp:821-824 | ids 1, 3 and 153 never enter the table, whatever the packets are |
| `Bands.ParseMcsMap` | net/netlink_utils.cpp:657-669 | the downward scan returns the highest supported stream |
| `Bands.ParseHtMcsSet` | net/netlink_utils.cpp:591-612 | receive streams are the highest of four with a non-empty rate byte; transmit streams follow unless the set defines its own |
| `Bands.HtRxStreams` | net/netlink_utils.cpp:593-599 | between 1 and 4, the highest stream with a non-zero byte, every higher byte zero (section 9.4.2.56.4 of IEEE 802.11-2016) |
| `Bands.PacketPartition` | net/netlink_utils.cpp:450-565 | the five lists together are exactly the enabled in-range channels of all bands of a packet, each listed once |
| `Bands.PacketLists` | net/netlink_utils.cpp:512-565 | read off the attributes: each of the five lists holds, in order, the enabled channels of all bands in its range, 5 GHz channels with radar state 0 or 2 or passive-only going to the DFS list |
| `Bands.PacketFlags` | net/netlink_utils.cpp:464-510 | each of the seven flags is set if and only if some band carries the attribute or capability bit that stands for it |
| `Bands.PacketStreams` | net/netlink_utils.cpp:574-669 | a direction has at least n streams, n above 1, if and only if the HT, VHT or first HE set of some band supports the n-th or a higher one; counts stay in 1..8 |
| `Bands.ParseFailsIff` | net/netlink_utils.cpp:453-462 | parsing fails if and only if the packet has no bands attribute whose children can be listed |
| `Bands.PacketListsInRange` | net/netlink_utils.cpp:450-565 | whatever a packet says, every listed frequency lies in the range of its list |
| `Bands.CombineAssoc` | net/netlink_utils.cpp:464-483 | lists appended, flags or-ed, streams maxed: an associative combination |
| `Bands.BandsAppend` | net/netlink_utils.cpp:450-486 | parsing complete bands followed by any bytes combines the two parses, and fails when the second does |
| `Bands.MergedBands` | net/netlink_utils.cpp:450-486 | parsing the merge of two band attributes is the combination of the separate parses |
| `Bands.JoinedBands` | net/netlink_utils.cpp:450-486 | the same for any number of fragments |
| `Bands.DumpBandsJoined` | net/netlink_utils.cpp:450-848 | for any fragments, reassembling a dump and parsing the bands of a wiphy is parsing the concatenated fragments |
| `Bands.DumpBands` | net/netlink_utils.cpp:450-848 | when the fragments consist of complete bands that is the combination of the parses of the single fragments |
| `Bands.SoundIsLegible` | net/netlink_utils.cpp:450-726 | headers that cover themselves, as the kernel writes them, meet the requirements of every read |
| `Bands.BandParser.HandleFreq` | net/netlink_utils.cpp:520-564 | one channel attribute adds exactly its own contribution |
| `Bands.BandParser.AddFreq` | net/netlink_utils.cpp:532-563 | the frequency goes to the list of its range, DFS and passive-only 5 GHz channels to the DFS list |
| `Bands.BandParser.AddFreq5g` | net/netlink_utils.cpp:535-557 | a 5 GHz channel goes to the DFS list if its radar state allows use or it is passive-only, else to the 5 GHz list |
| `Bands.BandParser.HandleBandFreqAttributes` | net/netlink_utils.cpp:512-565 | adds the contributions of all channels in order; nothing when they cannot be listed |
| `Bands.BandParser.ParseIfTypeDataAttributes` | net/netlink_utils.cpp:488-510 | adds the contribution of the first interface type alone |
| `Bands.BandParser.ParseHe` | net/netlink_utils.cpp:686-707 | 802.11ax when the attribute is there, channel widths only when it is long enough |
| `Bands.BandParser.ParseHeMcs` | net/netlink_utils.cpp:634-655 | raises the stream counts to those of the HE maps |
| `Bands.BandParser.ParseEht` | net/netlink_utils.cpp:709-726 | 802.11be when the attribute is there, 320 MHz only when it is long enough |
| `Bands.BandParser.ParseHtMcsSetAttribute` | net/netlink_utils.cpp:574-589 | raises the stream counts to those of the HT set; short sets are ignored |
| `Bands.BandParser.ParseVhtMcsSetAttribute` | net/netlink_utils.cpp:614-632 | raises the stream counts to those of the VHT set; short sets are ignored |
| `Bands.BandParser.ParseVhtCapAttribute` | net/netlink_utils.cpp:671-684 | raises the two width flags of the capability word |
| `Bands.BandParser.ParseHtVhtPhyCapabilities` | net/netlink_utils.cpp:567-572 | adds the combination of the three contributions |
| `Bands.BandParser.ParseBand` | net/netlink_utils.cpp:465-483 | one band adds exactly its own contribution to what was there |
| `Bands.BandParser.ParseBandInfo` | net/netlink_utils.cpp:450-486 | succeeds exactly when the bands can be listed, then holds the combination of all bands with stream counts in 1..8; on failure nothing changes |
| `NetlinkManager.NthSequenceIs` | net/netlink_manager.cpp:92-97 | the n-th sequence number is 1 + (n-1) mod (2^32 - 1), never the broadcast number |
| `NetlinkManager.SequencesDistinct` | net/netlink_manager.cpp:92-97 | any 2^32 - 1 consecutive sequence numbers are pairwise distinct |
| `NetlinkManager.ReceiveParts` | net/netlink_manager.cpp:111-172 | parts at the front of a datagram are delivered in order before the rest is handled |
| `NetlinkManager.ReceiveGroup` | net/netlink_manager.cpp:99-174 | one datagram of a multipart reply delivers its parts, and retires the handler when it ends the reply |
| `NetlinkManager.MultipartCollected` | net/netlink_manager.cpp:99-174 | any grouping of a multipart reply into datagrams appends exactly the parts, in order, to the vector of the request, removes that handler and no other, and leaves all other vectors and the broadcasts unchanged |
| `NetlinkManager.ReceiveIsFold` | net/netlink_manager.cpp:99-174 | on any whole messages the receive loop is the fold of the message step, cut at the first message that ends its datagram |
| `NetlinkManager.NoEffectIffUnheard` | net/netlink_manager.cpp:118-172 | messages leave the state as it was if and only if none is a broadcast or has a handler: handlers only go, vectors and broadcasts only grow |
| `NetlinkManager.DatagramIsFoldIff` | net/netlink_manager.cpp:99-174 | a datagram has the effect of all its messages if and only if the messages behind the first one that ends it are no broadcasts and have sequence numbers that nobody waits for at that point |
| `NetlinkManager.GroupingIff` | net/netlink_manager.cpp:99-174 | for any messages in any grouping: after each datagram the state is that of the messages so far, handled one by one, if and only if every datagram drops only messages that nobody would have heard |
| `NetlinkManager.GroupingDoesNotMatter` | net/netlink_manager.cpp:99-174 | two groupings of the same messages, of whatever replies and broadcasts, have the same effect when each drops only messages that nobody would have heard |
| `NetlinkManager.RestIsDropped` | net/netlink_manager.cpp:136-157 | after an end marker or a message that nobody waits for, the rest of the datagram has no effect whatever it holds |
| `NetlinkManager.SharedDatagramLosesMessage` | net/netlink_manager.cpp:136-157 | two concrete end markers that retire two handlers in two datagrams and only one when they share a datagram |
| `NetlinkManager.WithinDatagram` | net/netlink_manager.cpp:99-123 | old bytes in the receive buffer have no effect when the messages end inside the datagram |
| `NetlinkManager.CompleteIsWhole` | net/nl80211_packet.cpp:59-95 | a message whose length field is right is valid if and only if generic messages and errors have room for what follows the netlink header |
| `NetlinkManager.BroadcastHeard` | net/netlink_manager.cpp:131-135 | a message with sequence number 0 is kept as a broadcast and the datagram goes on |
| `NetlinkManager.UnknownStops` | net/netlink_manager.cpp:137-143 | a message that nobody waits for has no effect and ends the datagram |
| `NetlinkManager.EndRetires` | net/netlink_manager.cpp:147-156 | NOOP, DONE and OVERRUN remove the handler, are not delivered and end the datagram |
| `NetlinkManager.ReplyCollected` | net/netlink_manager.cpp:166-172 | any other message without the multipart flag is appended to its request's vector, removes that handler and nothing else, and the datagram goes on |
| `NetlinkManager.PartCollected` | net/netlink_manager.cpp:166-172 | with the multipart flag it is appended and the handler keeps waiting |
| `NetlinkManager.IncompleteIgnored` | net/netlink_manager.cpp:113-126 | what is shorter than its kind needs has no effect and ends the datagram |
| `NetlinkManager.OverrunCompleted` | net/netlink_manager.cpp:118-121 | a message longer than its datagram is completed from the bytes behind it and is the last one handled |
| `NetlinkManager.WaitRetires` | net/netlink_manager.cpp:305-332 | whatever datagrams, poll errors and delays occur, no handler is left for the request |
| `NetlinkManager.WaitCollects` | net/netlink_manager.cpp:305-332 | the reply vector grows only by whole packets of the request's sequence number, in arrival order |
| `NetlinkManager.WaitOkIff` | net/netlink_manager.cpp:305-332 | the wait succeeds if and only if some first reads, none failed, retire the handler before the time is up |
| `NetlinkManager.WaitStops` | net/netlink_manager.cpp:305-332 | the wait stops at the first point with nothing to wait for, no time or no further read, and its whole effect is that of the reads so far and the loss of its own handler |
| `NetlinkManager.WaitMultipart` | net/netlink_manager.cpp:284-333 | a multipart reply in any grouping that arrives in time is returned with success: the parts in order, the handler gone, all else unchanged; when its end comes in the last datagram the call succeeds if and only if the time has not run out, and a reply of which only the last datagram was late is complete though reported as failed |
| `NetlinkManager.SingleReply` | net/netlink_manager.cpp:284-333 | a request answered within 4000 ms by one message without the multipart flag succeeds and its vector grows by that message |
| `NetlinkManager.SingleAck` | net/netlink_manager.cpp:369-396 | such a reply in a fresh vector acknowledges if and only if it is an error message whose code is 0 |
| `NetlinkManager.NetlinkManager.constructor` | net/netlink_manager.cpp:83-87 | no handlers, sequence number 0 |
| `NetlinkManager.NetlinkManager.GetSequenceNumber` | net/netlink_manager.cpp:92-97 | advances to the next number of the sequence, never the broadcast number |
| `NetlinkManager.NetlinkManager.HandleMessage` | net/netlink_manager.cpp:118-172 | the new state and whether the datagram goes on are those of the message step |
| `NetlinkManager.NetlinkManager.ReceivePacketAndRunHandler` | net/netlink_manager.cpp:99-174 | the cursor loop refines the fold over the messages in the buffer, a message longer than its datagram being completed from old bytes as in the code |
| `NetlinkManager.NetlinkManager.SendMessageAndGetResponses` | net/netlink_manager.cpp:284-333 | a failed send changes nothing; otherwise no handler is left, and a vector of its own has grown only by packets of that sequence in arrival order |
| `NetlinkManager.NetlinkManager.WaitForReply` | net/netlink_manager.cpp:305-332 | the poll loop refines the recursive wait |
| `NetlinkManager.NetlinkManager.SendMessageAndGetSingleResponseOrError` | net/netlink_manager.cpp:353-367 | returns a packet exactly when the exchange succeeds with one reply; it is whole, has the request's sequence number and did arrive |
| `NetlinkManager.NetlinkManager.SendMessageAndGetAck` | net/netlink_manager.cpp:369-396 | true if and only if the exchange succeeds with exactly one reply, an NLMSG_ERROR of code 0 |
| `Server.NoDanglingStep` | server.cpp:125-263 | every operation, re-creation included, leaves each handler in the six tables belonging to an interface of the right role that the server still owns |
| `Server.NoDanglingRun` | client_interface_impl.cpp:121-164 | the same over every run, without condition |
| `Server.CreateApSubscribes` | ap_interface_impl.cpp:53-69 | creating an AP keeps every live interface subscribed if and only if no live interface has its index |
| `Server.CreateClientSubscribes` | client_interface_impl.cpp:121-164 | the same for a client |
| `Server.SubscribedRun` | server.cpp:125-263 | on a run every live interface owns its entry in every table of its role all the time if and only if every index is free when it is taken |
| `Server.TablesExact` | server.cpp:125-263 | on such runs the keys of the six tables are exactly the indices of the live interfaces of the right role |
| `Server.RecreateLosesSubscriptions` | server.cpp:197-207 | a concrete re-creation after which the live client is not subscribed, though nothing dangles |
| `Server.ConsistentStep` | server.cpp:125-263 | an operation keeps names, wiphys and bands consistent if and only if it does not tear down a name that is live in the other role |
| `Server.CrossTeardownLosesName` | server.cpp:163-167 | a concrete tearDownApInterface that forgets the wiphy of a live client |
| `Server.ConsistentRun` | server.cpp:125-263 | with a fixed assignment of names to wiphys, every state of a run is consistent if and only if every teardown matches the role of its name |
| `Server.RegistryOnEveryRun` | server.cpp:125-263 | on such runs the wiphy map names exactly the live interfaces, a wiphy without interface has no band, and tearDownInterfaces empties all four maps and all six tables |
| `Server.BandsAreSticky` | server.cpp:658-711 | in any state, an operation takes a band from a wiphy if and only if it is the teardown of the wiphy's last interface, or tearDownInterfaces with an interface on it, and nobody has the band afterwards |
| `Server.UpdateBandsClaims` | server.cpp:658-693 | a wiphy gains exactly the bands that it offers and nobody has; all others keep their owner |
| `Server.CreateClaims` | server.cpp:143-148 | creating an interface of either role claims, for a wiphy that had none, exactly the bands that it offers and nobody has; every other band stays as it is |
| `Server.CreateRegisters` | server.cpp:125-216 | the new interface is there under its name with its index, its wiphy and an object of its own, and no other name changes |
| `Server.FailedCreate` | server.cpp:130-132 | an interface that the kernel does not know changes nothing |
| `Server.TearDownRemoves` | server.cpp:153-241 | a teardown removes the interface of its role and the wiphy entry of the name, and no other name |
| `Server.RefreshedBands` | server.cpp:492-514 | a country code change takes no band from anyone, and new bands go to the wiphy of a visited interface |
| `Server.CountryCodeClaims` | server.cpp:492-514 | a band that nobody had goes to the first interface, clients before APs, whose wiphy offers it, and to nobody if there is none; nothing else changes |
| `Server.RegDomainIs` | server.cpp:516-537 | a regulatory event does the same if and only if its wiphy has an interface, and nothing otherwise |
| `Server.Server.HasNoIfaceForWiphyIndex` | server.cpp:178-184 | true exactly when no name maps to the wiphy |
| `Server.Server.UpdateBandWiphyIndexMap` | server.cpp:658-693 | the five conditional insertions perform the claims |
| `Server.Server.EraseBandWiphyIndexMap` | server.cpp:695-711 | erasing while iterating ends and removes exactly the wiphy's entries |
| `Server.Server.CreateApInterface` | server.cpp:125-151 | performs the create transition, the replaced object being destroyed after the new one subscribed |
| `Server.Server.TearDownApInterface` | server.cpp:153-176 | succeeds exactly when the AP was there; performs the teardown transition, which forgets the name's wiphy either way |
| `Server.Server.CreateClientInterface` | server.cpp:186-216 | performs the create transition, the replaced object being destroyed after the new one subscribed |
| `Server.Server.TearDownClientInterface` | server.cpp:218-241 | succeeds exactly when the client was there; performs the teardown transition |
| `Server.Server.TearDownInterfaces` | server.cpp:243-263 | the loops over interfaces and names perform the transition that drops everything |
| `Server.Server.DestroyClients` | server.cpp:244-247 | destroying the clients one by one, in any order, removes exactly their entries |
| `Server.Server.DestroyAps` | server.cpp:249-252 | the same for APs |
| `Server.Server.HandleCountryCodeChanged` | server.cpp:492-514 | each wiphy of a live interface claims bands once |
| `Server.Server.OnRegDomainChanged` | server.cpp:516-537 | a stale wiphy index changes nothing |
| `ScanUtils.GetSSIDFromInfoElement` | scanning/scan_utils.cpp:247-276 | ends on every byte string, stays inside it and equals the specification parser |
| `ScanUtils.FindsFirstSsid` | scanning/scan_utils.cpp:247-276 | an SSID is returned if and only if it is the payload of the first element with id 0, reached through complete elements |
| `ScanUtils.FailsOnTruncation` | scanning/scan_utils.cpp:247-276 | parsing fails if and only if a truncated element or the end comes before any SSID |
| `ScanUtils.SsidRoundTrip` | scanning/scan_utils.cpp:247-276 | on every encoded element list (sections 9.4.2.1 and 9.4.2.2 of IEEE 802.11-2016) the parser returns the first SSID |
| `ScanUtils.Decompose` | scanning/scan_utils.cpp:256-274 | every byte string is complete foreign elements followed by an SSID or by a truncated element |
| `ScanUtils.ElementOnTheWire` | scanning/scan_utils.cpp:256-274 | an element is its id, its length and its payload; id 0 gives the SSID, any other is stepped over |
| `ScanUtils.CutElement` | scanning/scan_utils.cpp:257-263 | bytes that end before their first element does give no SSID |
| `ScanUtils.ByteList` | scanning/scan_utils.cpp:434-437 | the loop over SSIDs builds the nested attribute with one numbered child each |
| `ScanUtils.FreqList` | scanning/scan_utils.cpp:438-441 | the loop over frequencies builds the nested attribute with one numbered child each |
| `ScanUtils.MatchAttr` | scanning/scan_utils.cpp:447-455 | the loop over match SSIDs builds one numbered group of SSID and threshold each |
| `ScanUtils.PlansAttr` | scanning/scan_utils.cpp:486-502 | the plans are numbered from 1 with seconds and iterations, the last without iterations |
| `ScanUtils.StartScheduledScan` | scanning/scan_utils.cpp:415-519 | for every request the step-by-step construction yields a packet that asks for an acknowledgement and carries match sets, RSSI adjustment, index, SSIDs, frequencies, interval and flags in that order |
| `ScanUtils.MatchSetsReadBack` | scanning/scan_utils.cpp:447-456 | read back from the bytes of the request: as many match sets as SSIDs, the i-th with the i-th SSID and the 5 GHz threshold |
| `ScanUtils.ScanSsidsReadBack` | scanning/scan_utils.cpp:434-478 | read back from the bytes: exactly the SSIDs to scan for, in order |
| `ScanUtils.FreqsReadBack` | scanning/scan_utils.cpp:438-483 | read back from the bytes: exactly the frequencies, in order, and no attribute at all when there are none |
| `ScanUtils.IfIndexReadBack` | scanning/scan_utils.cpp:476-477 | read back from the bytes: the interface index |
| `ScanUtils.AdjustReadBack` | scanning/scan_utils.cpp:460-470 | read back from the bytes: band 0 and the difference of the thresholds as one byte, if and only if it was asked for |
| `ScanUtils.FlagsReadBack` | scanning/scan_utils.cpp:508-519 | read back from the bytes: bit 3 for random addresses, bit 9 for low power, and no attribute without either |
| `ScanUtils.IntervalReadBack` | scanning/scan_utils.cpp:503-507 | read back from the bytes: the single interval in milliseconds when there are no plans |
| `ScanUtils.PlansReadBack` | scanning/scan_utils.cpp:485-502 | read back from the bytes: any number of plans in order, numbered from 1, with seconds and iterations, and the last one without iterations |
| `ScanUtils.HeaderReadBack` | scanning/scan_utils.cpp:426-432 | the message is a valid START_SCHED_SCAN request of the family that asks for an acknowledgement |
| `ScanUtils.KernelNumbers` | net/kernel-header-latest/nl80211.h:2562-2789 | the command and attribute numbers are the kernel's |
| `ScanUtils.OneIntervalAttribute` | scanning/scan_utils.cpp:485-507 | the bytes carry the plans attribute if there are plans and the interval attribute if there are none, never both |
| `ScanUtils.RequestFits` | scanning/scan_utils.cpp:433-519 | with at most one plan before the final one, the whole request fits its 16-bit lengths as soon as its three lists do |
| `Scanner.PlansSoundIff` | scanning/scanner_impl.cpp:496-522 | when plans are chosen with a multiplier of at least 1, neither interval wraps and both respect the limit in seconds if and only if the interval is not negative; with multiplier 0 if and only if the interval has 32 bits and respects the limit by itself; plan count and iterations respect the device |
| `Scanner.PlansChosenIff` | scanning/scanner_impl.cpp:496-522 | plans are chosen if and only if the device allows two, its limit in milliseconds as a 32-bit number covers the product and the iterations fit; otherwise the single interval is the requested one in 32 bits |
| `Scanner.EmittedPlans` | scanning/scan_utils.cpp:485-502 | read back from the bytes of the request: two plans with the requested seconds within the limit, the iterations on the first, none on the last |
| `Scanner.ZeroMultiplierUnsound` | scanning/scanner_impl.cpp:496-522 | a concrete request with multiplier 0 whose plan exceeds the device's limit |
| `Scanner.PnoWithinLimits` | scanning/scanner_impl.cpp:245-320 | scan SSIDs number at most max(1, limit), match sets at most the limit; frequencies are strictly increasing and supported by the chip |
| `Scanner.CandidatesInOrder` | scanning/scanner_impl.cpp:268-284 | the networks left for matching keep the order of the request |
| `Scanner.ParsePnoSettings` | scanning/scanner_impl.cpp:245-320 | the loop and its sets compute the closed form, and so the request described network by network in RequestMeets |
| `Scanner.RequestMeets` | scanning/scanner_impl.cpp:245-320 | the closed form of the request is, network by network, what the positions say: hidden ones that fit are scanned for, scannable ones that fit are matched, the rest is skipped for one reason; a frequency is scanned if and only if the chip has it and a matched network lists it, or it is a default and over 30% of the matched list none |
| `Scanner.FatesPartition` | scanning/scanner_impl.cpp:268-284 | matched, crowded out and unscannable networks together are all networks, each once |
| `Scanner.RequestAccounts` | scanning/scanner_impl.cpp:245-320 | in a request that meets this description no SSID is lost or doubled, matches keep the order of the networks, and they are cut only at the device's limit |
| `Scanner.ParseNetwork` | scanning/scanner_impl.cpp:268-297 | one pass of the loop files the network in exactly the right lists and updates frequencies and count accordingly |
| `Scanner.SingleScanSsids` | scanning/scanner_impl.cpp:180-195 | the wildcard followed by the first hidden SSIDs of at most 32 bytes that fit the device's limit |
| `Scanner.PnoFailedBounded` | scanning/scanner_impl.cpp:477-494 | on every run the OnPnoScanFailed calls made never exceed the PNO starts that the kernel accepted |
| `Scanner.NoFailureAfterStop` | scanning/scanner_impl.cpp:389-403 | on every run, between a successful stop and a later OnPnoScanFailed lies a successful start |
| `Scanner.HistoryIs` | scanning/scanner_impl.cpp:160-494 | on every run the ENODEV counter, the abort at four, both scans, both handlers and every handler call made are what the sequence of operations says; OnPnoScanFailed is called exactly when a stop is reported with a handler subscribed and PNO on |
| `Scanner.ScannerImpl.ScanRequest` | scanning/scanner_impl.cpp:160-223 | performs the transition and returns success, or the status that stands for the scanner's invalidity or the error number |
| `Scanner.ScannerImpl.StartPnoScanDefault` | scanning/scanner_impl.cpp:322-382 | performs the transition; succeeds exactly when the scanner is valid and the kernel accepts |
| `Scanner.ScannerImpl.StopPnoScanDefault` | scanning/scanner_impl.cpp:389-403 | performs the transition; succeeds exactly when the scanner is valid and the kernel stops |
| `Scanner.ScannerImpl.SubscribeScanEvents` | scanning/scanner_impl.cpp:420-431 | an invalid scanner keeps its handler |
| `Scanner.ScannerImpl.UnsubscribeScanEvents` | scanning/scanner_impl.cpp:433-436 | the handler is dropped, valid scanner or not |
| `Scanner.ScannerImpl.SubscribePnoScanEvents` | scanning/scanner_impl.cpp:438-450 | an invalid scanner keeps its handler |
| `Scanner.ScannerImpl.UnsubscribePnoScanEvents` | scanning/scanner_impl.cpp:452-455 | the handler is dropped, valid scanner or not |
| `Scanner.ScannerImpl.OnScanResultsReady` | scanning/scanner_impl.cpp:457-475 | the scan is no longer running, and a subscribed handler hears exactly once whether it was aborted or has results |
| `Scanner.ScannerImpl.OnSchedScanResultsReady` | scanning/scanner_impl.cpp:477-494 | a subscribed handler hears of found networks, and of a failure exactly when a stop arrives while a PNO scan is believed running; without a handler nothing changes |
| `Scanner.ScannerImpl.InvalidateScanner` | scanning/scanner_impl.cpp:114-120 | only the validity changes |
| `ClientInterface.InvariantHolds` | client_interface_impl.cpp:121-134 | on every run: at most one call per callback, none to a callback still in flight, the stored cookie and handler are those of the latest accepted request |
| `ClientInterface.HistoryIs` | client_interface_impl.cpp:121-317 | on every run the request in flight, its cookie and all callback invocations are what the sequence of operations says: a rejection reports at once which of the two reasons it has, a status with the cookie in flight reports the outcome |
| `ClientInterface.AtMostOneOutcome` | client_interface_impl.cpp:288-317 | each callback hears at most one outcome on any run; when idle the cookie is 0 and the handler does nothing |
| `ClientInterface.RejectionIsLocal` | client_interface_impl.cpp:288-300 | a rejected request fails at once, exactly once, and leaves the one in flight alone |
| `ClientInterface.StatusCompletesLatest` | client_interface_impl.cpp:125-134 | a status event completes the latest accepted request if it carries its cookie, and changes nothing otherwise |
| `ClientInterface.AcceptedCompletes` | client_interface_impl.cpp:302-317 | an accepted request, whatever rejections and foreign statuses come in between, is completed by the status with its cookie: its callback hears the outcome exactly once |
| `ClientInterface.SupersededStaysSilent` | client_interface_impl.cpp:302-317 | a request in flight when another one is accepted is never called, on any later run |
| `ClientInterface.FrameSender.OnFrameTxStatus` | client_interface_impl.cpp:125-134 | performs the status transition |
| `ClientInterface.FrameSender.SendMgmtFrame` | client_interface_impl.cpp:288-317 | performs the request transition |

## Left out

- Sockets, poll, setsockopt, the netlink interceptor, family discovery and the event loop: datagrams, poll outcomes and
  elapsed milliseconds are inputs. A finite list of poll outcomes ends in silence, which makes poll time out.
- Elapsed-time bounds of a request: each interval is truncated to milliseconds, so the loop has no clean measure of time.
- Binder proxies, service registration, permission checks, dump, logging and the lists of callbacks: plumbing.
- The parcelable classes: thin wrappers over a library that is not part of this model.
- Dispatch of broadcast messages by command: they are recorded in order. Handlers do not re-enter the receiver here.
- The subscription table for regulatory domains, keyed by wiphy, MarkDownAllInterfaces, and the refresh of each client's
  own band information in handleCountryCodeChanged.
- GetListOfAttributes, GetListOfAttributeValues and fixed-size arrays: they would repeat GetListOfNestedAttributes and
  the byte-vector reads with easier contracts. DebugLog only writes text.
- GetWiphyInfo with its retry loop, ParseScanCapabilities, GetStationInfo and the other kernel queries: straight-line
  use of the codec.
- The Scan packet, scan types and the association state: scanRequest is modelled by its SSID list and by the kernel's
  answer. abortScan changes nothing in the scanner.
- The setters of a packet's header: AddFlag is modelled, the other requests' NLM_F_DUMP bit would be one more use of it.
- Packet buffers as memory: a buffer is a field holding a sequence, so aliasing of pointers into it is not modelled.
- Attribute.GetAttributeImpl: requires that the search does not meet a foreign header of length 0, on which the code
  never returns; `StuckIff` says exactly when that is.
- Attribute.NL80211Attr.HasAttribute: the same requirement, as in GetAttribute and GetIntValue.
- Attribute.NL80211Attr.GetBytesValue: the match found must have a length of at least 4; on less the code copies a range
  of negative size, which has no defined result.
- Attribute.NL80211Attr.GetStringValue: the length must be at least 4; on less the string length wraps around and the
  code reads outside its buffer.
- Attribute.NL80211Attr.Merge: the other attribute must have a length of at least 4, as above, and so must this one,
  whose header would otherwise be cut off; the two are different objects, since inserting a vector into itself is not
  defined.
- Packet.NL80211Packet.GetAllAttributes: lengths 1 to 3 are excluded; the code would copy a range of negative size.
- SplitDump.MergePacketsForSplitWiphyDump: every merged length must fit 16 bits; `MergedValidIffFits` and
  `MergeCanOverflow` say what happens to an attribute beyond. Packets are those on which the two reads end and are
  defined.
- SplitDump.Collect: the same requirements.
- SplitDump.Absorb: the merged length must fit 16 bits.
- SplitDump.MergeInto: the merged length must fit 16 bits.
- Bands.BandParser.ParseBandInfo: each search that the code makes ends, and each attribute whose payload is copied has a
  length of at least 4; nothing more is asked of the bytes. The helpers require this of the attributes they read.
- Bands.DumpBands: each band fragment is made of complete bands, as the kernel splits them; `DumpBandsJoined` has no such
  requirement.
- NetlinkManager.NetlinkManager.HandleMessage: broadcasts are recorded in order, their dispatch by command is left out.
- NetlinkManager.NetlinkManager.ReceivePacketAndRunHandler: every message that the loop reaches ends inside the 8 KiB
  buffer; beyond it the code reads other memory. What an earlier read left behind the datagram is an input. The code
  advances by the unaligned message length, so messages lie end to end.
- NetlinkManager.NetlinkManager.SendMessageAndGetResponses: the same requirement on each read, and one attempt. What a
  vector shared with another pending handler receives is not described beyond the exchange itself.
- NetlinkManager.NetlinkManager.WaitForReply: the same requirement on each read.
- NetlinkManager.NetlinkManager.SendMessageAndGetSingleResponseOrError: the same requirement on each read.
- NetlinkManager.NetlinkManager.SendMessageAndGetAck: the same requirement on each read.
- Server.ConsistentRun: the kernel assigns names to wiphys once and for all.
- Server.Server.HandleCountryCodeChanged: the refresh of each client's own copy of its band information is left out. The
  order of iteration is an input; any order is allowed, so in particular that of the names.
- Scanner.PlansSoundIff: the 64-bit product of interval and multiplier does not overflow, which would be undefined.
- Scanner.ParsePnoSettings: the chip's frequency lists are those of a band parse, which `PacketListsInRange` shows to be
  in range; the vector of security flags is constant and omitted.
- ScanUtils.StartScheduledScan: building the packet is modelled, sending it is the netlink exchange.
- ScanUtils.MatchSetsReadBack: every attribute of the request fits its 16-bit length, as in ScanSsidsReadBack,
  FreqsReadBack and OneIntervalAttribute; beyond that the lengths that the kernel sees have wrapped. By `RequestFits`
  it is enough that the three lists do.
- Scanner.EmittedPlans: the three lists of the request fit their 16-bit lengths.
- ClientInterface.AtMostOneOutcome: each request brings its own callback, and a callback does not send another frame
  from inside its own invocation.
