# Verified models of the Zero-VPN packet and protocol cores

This project models, in Dafny 4.11, the parts of the Zero-VPN tree where fast or stateful code has to
agree with a simple specification, and proves that it does. Two programs are covered: `amneziawg-go`
(the WireGuard implementation with obfuscation) and `hev-socks5-tunnel` (the tun-to-socks bridge).
`dafny verify dfyconfig.toml` checks everything. Nothing here executes the original programs.

| files | system part |
|---|---|
| `Bytes`, `Words`, `Options` | byte strings, fixed-width integers, bitwise operators on natural numbers |
| `Checksum` | the unrolled Internet checksum against the sum of section 2 of RFC 1071 |
| `Gso`, `GsoRead` | splitting one large packet into segments; one read from the tun device, and exactly when its segments are right |
| `GroPackets`, `GroGroups`, `GroState`, `GroDelivery`, `GroSteps`, `GroBatch`, `GroPush` | merging received packets, with flow tables and buffer swaps; the invariant of a batch; what is written; the decisions as functions; a batch that loses a flag |
| `Trie`, `TrieInsert`, `TrieRemove`, `TrieOps`, `AllowedIps`, `IpBytes` | the allowed-IPs trie as heap nodes, its invariant as a value, its operations against a map; the byte arithmetic under it |
| `Transcript`, `IndexTable`, `Device`, `Exchange` | the Noise IKpsk2 handshake over abstract primitives, keypair rotation, the receiver-index table, the whole exchange between two devices |
| `Nonce` | interleaved nonce allocation |
| `Replay` | the sliding-window replay filter |
| `Datagrams` | coalescing outgoing datagrams, splitting received ones |
| `UintRanges`, `HeaderConfig`, `Classify` | header ranges, set operations, building and classifying obfuscated messages |
| `Limiter` | the token bucket and its garbage collection |
| `Lru`, `DnsMessages`, `MappedDns`, `DnsHandler` | the mapped-DNS table and the in-place DNS rewriter |
| `StopProtocol` | stopping the tunnel from other threads |

Code that updates state keeps that form: objects are classes with the source's fields, loops are loops,
and buffers are arrays, except in the `Gro` files and the outgoing `Datagrams`, where a buffer is a byte
string with its capacity and a batch is a sequence that the methods reassign. Each such method is tied to
a function of the old state, and the promises are lemmas about that function. Protocols between threads
are state machines over atomic steps, with the property proved for every run.

Three conventions. A long body of the source is split here into several methods with their own
contracts. `hide` statements only limit what the solver unfolds. Times, random draws and
cryptographic primitives are parameters; `Transcript.Laws` lists the only laws assumed of the latter
(commutative Diffie-Hellman that is never zero on generated keys, and opening inverts sealing).

Where a property does not hold of the code as it is, the model keeps the code, shows an input, and
gives the exact condition:

- segments after a tun read: `GsoRead.PayloadExactly` (payload conserved) with `ShortHeaderZeroes` and
  `ChecksAdmitShortHeader`, `GsoRead.VerifiesExactly` (checksums) with `Gso.OddOffsetFails`,
  `GsoRead.NetworkHeaderExactly` (network header), `GsoRead.RightExactly` (all three);
- TCP flags of merged packets: `GroDelivery.MergedResplits` (lost exactly when a last packet with PSH
  arrived before another of its group) with `GroPush.PushIsLost`;
- empty datagrams: `Datagrams.CoalesceMessages` (lost exactly when they join a message) with `EmptyIsLost`
  and `EmptyIsKept`;
- the receiver-index table: `IndexTables.RunKeeps`, `AssignKeeps`, `LoseKeeps` and `ZeroIsLost` (a drawn
  index of zero, a failed draw);
- message kinds: `Classify.OwnKindExactly` and `AmbiguousIsMistaken` (unequal paddings);
- nonces: `Nonces.OneMoreReuses` (one sender more than the reserve);
- received segment sizes: `Datagrams.PartsAreTheMessage` (larger than the message);
- mapped addresses and name pointers: `MappedDnsTables.AddressRoundTrip` (networks with host bits),
  `DnsMessages.PointerIsOwn` (names beyond 14-bit offsets).

Two places where the code and its surroundings disagree, and the code is followed: the limiter's
strict comparison allows four packets in one instant although its burst constant is five
(`Limiter.WindowBound` is strict, `Limiter.FourInAnInstant` meets it), and a set operation that fails on
short paddings has already stored its header ranges (`HeaderConfig.ConfigStore.Merge`).

## Model

| member | source | states |
|---|---|---|
| Checksum.RepresentsIsEqualFold | amneziawg-go/tun/checksum.go:86-93 | two sums are congruent modulo 65535 and zero together exactly when their 16-bit checksums are equal |
| Checksum.WordSumConcat | amneziawg-go/tun/checksum.go:9-84 | chunks of even length compose: the word sum of a concatenation is the sum of the word sums |
| Checksum.AddBlock | amneziawg-go/tun/checksum.go:15-34 | folding the last carry back in never loses one: a block adds exactly its big-endian words modulo 65535, on hosts of either byte order |
| Checksum.TakeBlock | amneziawg-go/tun/checksum.go:35-66 | a remainder of at least 64, 32, 16 or 8 bytes gives up one block of that size, whose words are added exactly |
| Checksum.AddTails | amneziawg-go/tun/checksum.go:67-80 | the 4, 2 and 1 byte tails add exactly the remaining words, an odd byte padded on the right |
| Checksum.ChecksumNoFold | amneziawg-go/tun/checksum.go:9-84 | for every length and initial value the result represents initial plus the word sum, and is zero only when both are |
| Checksum.Checksum16 | amneziawg-go/tun/checksum.go:86-93 | four folds always fit 16 bits and give the one's complement sum of section 2 of RFC 1071 |
| Checksum.PseudoHeaderChecksumNoFold | amneziawg-go/tun/checksum.go:95-102 | represents the sum of the pseudo-header's words |
| Checksum.StoredChecksumVerifies | amneziawg-go/tun/offload_linux.go:970-978 | a complement stored in a clear field makes the whole sum verify |
| Checksum.StoredVerifiesExactly | amneziawg-go/tun/offload_linux.go:970-978 | stored over any other word at an even place, exactly when that word is 0 or 65535 |
| Checksum.OddStoredFails | amneziawg-go/tun/offload_linux.go:970-978 | stored at an odd place, it cannot verify for two byte strings that differ by one in another byte |
| Gso.GsoSplit | amneziawg-go/tun/offload_linux.go:901-983 | for every packet whose slices lie inside it: success exactly when the buffers suffice; then the count is least, every buffer holds the writes of its segment in their order, and no other byte changes; otherwise all buffers are filled and the count is one less |
| Gso.WriteSegment | amneziawg-go/tun/offload_linux.go:932-980 | one output buffer receives network header, transport header, fields, payload and checksums, each write over the ones before |
| Gso.WrittenIsSegment | amneziawg-go/tun/offload_linux.go:932-980 | when the checksum field lies in the transport header, the overlapping writes amount to the segment of the specification |
| Gso.SegmentCarriesPayload | amneziawg-go/tun/offload_linux.go:967-968 | rewriting header fields leaves each payload slice intact |
| Gso.SplitConservesPayload | amneziawg-go/tun/offload_linux.go:921-982 | the segments' payloads concatenate to the packet's payload |
| Gso.CountIsCeiling | amneziawg-go/tun/offload_linux.go:920-983 | the number of segments is the ceiling of payload length over segment size |
| Gso.SeqDeltaExact | amneziawg-go/tun/offload_linux.go:951-953 | the 16-bit product in the sequence number never wraps for packets up to 65535 bytes |
| Gso.SegmentFields | amneziawg-go/tun/offload_linux.go:935-964 | length fields, IPv4 identification, TCP sequence number and FIN/PSH flags of every segment, read back from its bytes, for every checksum offset that misses them |
| Gso.SegmentKeeps | amneziawg-go/tun/offload_linux.go:932-980 | every header byte that is not rewritten is the packet's |
| Gso.SegmentVerifies | amneziawg-go/tun/offload_linux.go:388-398 | at an even checksum offset a segment passes the checksum test exactly when the rewritten fields under the checksum are clear; its IPv4 header checksum always verifies |
| Gso.OddOffsetFails | amneziawg-go/tun/offload_linux.go:388-398 | at an odd one, of two packets that differ by one in a payload byte at most one gives a segment that passes |
| Gso.CheckChecksum | amneziawg-go/tun/offload_linux.go:388-398 | the computed test is the RFC 1071 verification over pseudo-header and transport part |
| GsoRead.HandleVirtioRead | amneziawg-go/tun/tun_linux.go:375-449 | a packet without segmentation is copied with its checksum completed; any other is refused by the checks or split, each segment then carrying its payload slice and passing the checksum test under the conditions that the next rows prove exact |
| GsoRead.ChecksEstablishSplittable | amneziawg-go/tun/tun_linux.go:403-447 | the checks, in wrapping 16-bit arithmetic, keep every slice of the split inside the packet, for all csumStart and csumOffset |
| GsoRead.NoneChecksum | amneziawg-go/tun/offload_linux.go:985-993 | the field is summed as the initial value, cleared, and replaced by the complement |
| GsoRead.NoneVerifies | amneziawg-go/tun/offload_linux.go:985-993 | what the field held and the bytes afterwards sum to all ones |
| GsoRead.PayloadExactly | amneziawg-go/tun/offload_linux.go:905-911 | every segment carries its slice of every payload exactly when csumStart + csumOffset + 2, in 16 bits, is at most the header length, and for IPv4 the header length at least 12 |
| GsoRead.ShortHeaderZeroes | amneziawg-go/tun/offload_linux.go:905-907 | with an IPv4 header length of at most ten, payload bytes 10 and 11 reach the first segment as zeroes, whatever they were |
| GsoRead.ChecksAdmitShortHeader | amneziawg-go/tun/tun_linux.go:403-447 | a packet with csumStart 0 and nonzero bytes there that passes the checks |
| GsoRead.VerifiesExactly | amneziawg-go/tun/offload_linux.go:901-983 | with the checksum field in the transport header, all segments pass the checksum test for every payload exactly when its offset is even and over no rewritten field: not the UDP length, and the TCP sequence number only where no carry or no second segment reaches the cleared half |
| GsoRead.NetworkHeaderExactly | amneziawg-go/tun/offload_linux.go:910-978 | a segment's network header is independent of the payload exactly when csumStart + csumOffset does not wrap to a place before the transport header |
| GsoRead.RightExactly | amneziawg-go/tun/tun_linux.go:403-448 | all three together, for every packet whose transport header follows a whole network header: payload, checksums and network headers of all segments are right for every payload exactly when the checksum field ends before the payload, does not wrap, and has a good offset |
| GroGroups.WholeIsFull | amneziawg-go/tun/offload_linux.go:360-368 | when the merged payload is a whole number of segments, every absorbed payload has full size |
| GroGroups.AppendHolds | amneziawg-go/tun/offload_linux.go:475-505 | appending keeps what a buffer stands for: payloads in order, regular sizes, consecutive sequence numbers, equal header fields and options, PSH only on the last packet and shown in the head |
| GroGroups.PrependHolds | amneziawg-go/tun/offload_linux.go:450-474 | so does prepending, with the new packet first and its sequence number the item's; the head then shows no PSH |
| GroState.DeleteKeepsCore | amneziawg-go/tun/offload_linux.go:136-140 | dropping an item with a bad checksum keeps the invariant of the batch |
| GroState.InsertKeepsCore | amneziawg-go/tun/offload_linux.go:112-129 | a packet that joins the table as an item of its own keeps it |
| GroState.NewGroupKeepsCore | amneziawg-go/tun/offload_linux.go:881-891 | a packet that is passed through keeps it |
| GroState.MergeKeepsCore | amneziawg-go/tun/offload_linux.go:131-134 | a merge at either end keeps it: every input index has one home, every item's buffer holds its group, no buffer is in two items, UDP flows stay in order |
| GroDelivery.AccountPkt | amneziawg-go/tun/offload_linux.go:625-679 | lengths, IPv4 checksum and partial transport checksum of a merged packet, as the specification gives them |
| GroDelivery.AccountingKeeps | amneziawg-go/tun/offload_linux.go:640-671 | accounting touches neither payload nor sequence number |
| GroDelivery.ApplyAccounting | amneziawg-go/tun/offload_linux.go:625-749 | all flows in any map order: each item's buffer accounted once, every other buffer untouched |
| GroDelivery.MergedResplits | amneziawg-go/tun/offload_linux.go:901-983 | split undoes merge: a merged and accounted buffer splits into exactly its group, with the original payloads, addresses, ports, sequence and acknowledgement numbers, options, hop limit and traffic class, and valid checksums; the TCP flags too, except exactly a PSH whose packet arrived before another of its group |
| GroPush.PushIsLost | amneziawg-go/tun/offload_linux.go:450-474 | two packets, the one with PSH first: one buffer is written, and its last segment has no PSH |
| GroDelivery.PassesDeliver | amneziawg-go/tun/offload_linux.go:893-895 | after the TCP and the UDP pass every group is delivered, none accounted twice, under a virtio header that names the protocol, the sizes and the checksum place of its packets; UDP groups in arrival order |
| GroBatch.Batch.CoalesceChecks | amneziawg-go/tun/offload_linux.go:419-431 | capacity, then the item's checksum, then the packet's, in that order |
| GroBatch.Batch.CoalesceTcp | amneziawg-go/tun/offload_linux.go:444-506 | the outcome, and on success the merged buffer at the item's index, swapped on a prepend |
| GroBatch.Batch.CoalesceUdp | amneziawg-go/tun/offload_linux.go:414-438 | the outcome, and on success the appended buffer |
| GroBatch.Batch.TryTcpItem | amneziawg-go/tun/offload_linux.go:587-617 | one comparison ends as the tests say, keeps the invariant, and deletes exactly an item found invalid |
| GroSteps.OrderedStep | amneziawg-go/tun/offload_linux.go:786-858 | one packet keeps every UDP flow in order: an earlier packet of a flow is never in a later buffer |
| GroBatch.Batch.TcpGro | amneziawg-go/tun/offload_linux.go:531-621 | result and new state are those of trying the flow's items from the last: merged by the first that takes the packet, passed through when it proves invalid, inserted otherwise |
| GroBatch.Batch.UdpGro | amneziawg-go/tun/offload_linux.go:786-858 | result and new state: merged exactly when the flow's last item takes the packet, inserted otherwise; never passed through once parsed |
| GroBatch.Batch.HandlePacket | amneziawg-go/tun/offload_linux.go:870-891 | the state, the packet's buffer and the write list after one packet are those of the step function; the invariant is kept |
| GroBatch.Batch.HandleGro | amneziawg-go/tun/offload_linux.go:865-896 | the whole batch: exactly the packets that the step function does not merge are written, in increasing order; each packet is in one written buffer; each of these is untouched or splits back into what it absorbed; of two packets of a UDP flow the earlier is never in a later buffer; fails exactly on a short offset or an empty packet |
| AllowedIps.AllowedIPs.constructor | amneziawg-go/device/allowedips.go:207-211 | the empty table has no routes |
| AllowedIps.AllowedIPs.NodePlacement | amneziawg-go/device/allowedips.go:88-99 | finds the stored prefix itself, or the place where it belongs; the bit after a prefix is never read past the address |
| AllowedIps.AllowedIPs.Lookup | amneziawg-go/device/allowedips.go:191-205 | the owner of the longest stored prefix containing the address, or none when no stored prefix contains it |
| AllowedIps.AllowedIPs.InsertLeaf | amneziawg-go/device/allowedips.go:101-145 | filling an empty slot adds one route |
| AllowedIps.AllowedIPs.InsertAbove | amneziawg-go/device/allowedips.go:146-165 | a node put above a longer prefix adds one route |
| AllowedIps.AllowedIPs.InsertFork | amneziawg-go/device/allowedips.go:167-189 | a node put beside a diverging prefix, under a new peerless fork, adds one route |
| AllowedIps.AllowedIPs.Insert | amneziawg-go/device/allowedips.go:291-304 | the map of routes changes at exactly that key; the structure is kept |
| AllowedIps.AllowedIPs.RemoveNode | amneziawg-go/device/allowedips.go:226-257 | the node's route disappears, no other; nodes that no longer join two subtries leave |
| AllowedIps.AllowedIPs.Remove | amneziawg-go/device/allowedips.go:259-278 | the key is deleted exactly when that peer owns it |
| AllowedIps.AllowedIPs.RemoveByPeer | amneziawg-go/device/allowedips.go:280-289 | exactly the peer's routes disappear |
| AllowedIps.AllowedIPs.EntriesForPeer | amneziawg-go/device/allowedips.go:213-224 | each prefix routed to the peer once, and no other |
| TrieInsert.GrowLinked | amneziawg-go/device/allowedips.go:101-189 | hanging new nodes into a slot keeps prefixes strictly extending on the chosen bit and parent references exact |
| TrieRemove.SpliceLinked | amneziawg-go/device/allowedips.go:234-256 | taking out a node with at most one child keeps them |
| TrieRemove.RemoveKeepsShape | amneziawg-go/device/allowedips.go:226-257 | removal, with or without its parent, keeps the whole structure: peerless nodes have two children, each peer's list holds exactly its nodes |
| IpBytes.CommonBytesIsCommonBits | amneziawg-go/device/allowedips.go:35-56 | leading zeros of the exclusive or of one 32-bit or two 64-bit words count the common leading bits |
| IpBytes.ChooseIsBit | amneziawg-go/device/allowedips.go:69-71 | the shifted byte is the bit after the prefix |
| IpBytes.MaskSelf | amneziawg-go/device/allowedips.go:73-78 | clears exactly the bits past the prefix |
| Transcript.FirstMessageIsRead | amneziawg-go/device/noise-protocol.go:252-327 | the responder derives the initiator's secrets and reads its static key and timestamp back |
| Transcript.SecondMessageIsRead | amneziawg-go/device/noise-protocol.go:424-494 | from the same hash and chain key the initiator accepts the responder's message |
| IndexTables.SlotsAreDisjoint | amneziawg-go/device/indextable.go:14-23 | no keypair serves two peers, and no two keypairs in slots share an index |
| IndexTables.AssignKeeps | amneziawg-go/device/noise-protocol.go:240-245 | giving a peer a drawn index keeps the invariant exactly when the index is not zero |
| IndexTables.LoseKeeps | amneziawg-go/device/noise-protocol.go:368-372 | after a failed draw it survives exactly when the handshake is left with index zero and awaits nothing |
| IndexTables.BeginKeeps | amneziawg-go/device/noise-protocol.go:576-609 | the rotation keeps it whichever end completes and whatever the slots hold |
| IndexTables.ConfirmKeeps | amneziawg-go/device/noise-protocol.go:613-630 | so does promoting next |
| IndexTables.FlushKeeps | amneziawg-go/device/peer.go:218-242 | so does flushing, and no entry of the peer remains |
| IndexTables.ClearKeeps | amneziawg-go/device/peer.go:244-250 | so does expiry |
| IndexTables.ZeroIsLost | amneziawg-go/device/indextable.go:58-92 | a peer that draws zero loses its entry to the next idle peer's initiation |
| IndexTables.RunKeeps | amneziawg-go/device/noise-protocol.go:180-630 | over every run of atomic steps, drawing zero and failed draws included: the table holds exactly the pending handshakes at their indices and the keypairs in slots, no keypair in two slots, throughout the run exactly when no step draws zero and every failed draw leaves zero where nothing is awaited |
| Devices.Settle | amneziawg-go/device/indextable.go:58-92 | the retry loop ends with a draw that is free in the table |
| Devices.Device.NewPeer | amneziawg-go/device/peer.go:63-125 | a peer is added exactly when there is room and its key is new, and the invariant extends to it |
| Devices.Device.Delete | amneziawg-go/device/indextable.go:38-42 | the entry is gone and the rest of the view is unchanged |
| Devices.Device.DeleteKeypair | amneziawg-go/device/keypair.go:48-52 | the keypair's entry, if any keypair, is gone |
| Devices.Device.SwapIndexForKeypair | amneziawg-go/device/indextable.go:44-56 | an entry that exists now leads to the keypair, for the same peer |
| Devices.Device.NewIndexForHandshake | amneziawg-go/device/indextable.go:58-92 | the loop returns the settling draw and enters the handshake there |
| Devices.Device.CreateMessageInitiation | amneziawg-go/device/noise-protocol.go:180-250 | succeeds exactly with usable secrets and a draw; fields and handshake are those of the transcript; the exact step on the table, and exactly when the invariant survives |
| Devices.Device.ConsumeMessageInitiation | amneziawg-go/device/noise-protocol.go:252-354 | accepts exactly an authentic message of a known running peer that is neither replayed nor too early; then the handshake holds the transcript's hash and chain key; otherwise nothing changes |
| Devices.Device.CreateMessageResponse | amneziawg-go/device/noise-protocol.go:356-422 | only after a consumed initiation; fields, handshake and step on the table, in every failure case too |
| Devices.Device.ConsumeMessageResponse | amneziawg-go/device/noise-protocol.go:424-518 | accepts exactly a response that authenticates against the handshake its receiver index leads to, which is then the one awaiting it |
| Devices.Device.BeginSymmetricSession | amneziawg-go/device/noise-protocol.go:524-611 | a fresh keypair with the transcript's keys in the order of the role takes its slot: current for the initiator, next for the responder; an unconfirmed next becomes previous, never current |
| Devices.Device.ReceivedWithKeypair | amneziawg-go/device/noise-protocol.go:613-630 | next is promoted exactly when it is the keypair received with |
| Devices.Device.SealPacket | amneziawg-go/device/send.go:449-630 | the packet is sealed under the sending key with the next nonce, which is used once; none at the limit |
| Devices.Device.LookupKeypair | amneziawg-go/device/receive.go:183-192 | the keypair whose local index the packet names, and its peer |
| Devices.Device.Receive | amneziawg-go/device/receive.go:286-515 | a packet is delivered exactly when it opens under the receiving key and the replay filter admits its counter; only then does its keypair count as confirmed; one that does not open leaves the filter alone |
| Devices.Device.Current | amneziawg-go/device/send.go:437-441 | the keypair used for sending is the device's own or a confirmed one, and its index leads to it |
| Devices.Device.ZeroAndFlushAll | amneziawg-go/device/peer.go:218-242 | slots and handshake are empty and the table holds nothing of the peer |
| Devices.Device.ExpireCurrentKeypairs | amneziawg-go/device/peer.go:244-261 | handshake cleared, slots kept, and the nonces of current and next at the limit |
| Exchange.Initiate | amneziawg-go/device/noise-protocol.go:180-354 | from any valid states the responder accepts the initiation and both ends hold the same hash and chain key |
| Exchange.Respond | amneziawg-go/device/noise-protocol.go:356-518 | the initiator accepts the response; same chain key, crossed indices |
| Exchange.Confirms | amneziawg-go/device/receive.go:183-515 | the initiator's first packet, sealed under its sending key, opens under the responder's receiving key, arrives unchanged, and makes the responder's keypair current |
| Exchange.Handshakes | amneziawg-go/device/noise_test.go:59-177 | a full exchange and first packet, from any valid states of two devices facing each other: send and receive keys crossed, local and remote indices crossed, the packet delivered, both ends sending under the new keypairs, both tables valid |
| Nonces.StepKeeps | amneziawg-go/device/send.go:450-463 | one add, compare or store step keeps every handed-out nonce unique and the counter from wrapping, while at most 2^13 senders are between add and store |
| Nonces.UniqueFromStart | amneziawg-go/device/send.go:431-475 | in every such interleaving, with expiry at any time, no nonce is sent twice and none at or above the limit |
| Nonces.OneMoreReuses | amneziawg-go/device/constants.go:16 | the reserve is exact: with 2^13 + 1 senders in between, nonce 0 is sent twice |
| Replay.Filter.constructor | amneziawg-go/replay/replay.go:20-27 | the zero value has accepted nothing |
| Replay.Filter.Reset | amneziawg-go/replay/replay.go:30-33 | whatever the ring holds, clearing block 0 makes the filter empty |
| Replay.Filter.Advance | amneziawg-go/replay/replay.go:42-51 | moving the window clears exactly the blocks it enters, also when it jumps past the whole ring |
| Replay.Filter.ValidateCounter | amneziawg-go/replay/replay.go:37-62 | accepts exactly a counter below the limit, new, and at most the window behind every accepted one; the accepted set grows by exactly it |
| Replay.NeverTwice | amneziawg-go/replay/replay.go:35-62 | in no run is a counter accepted twice |
| Replay.NothingNewRefused | amneziawg-go/replay/replay.go:35-62 | in every run a new counter within the window of all earlier ones is accepted |
| Datagrams.CutJoins | amneziawg-go/conn/bind_std.go:468-479 | cutting a batch at its segment size gives its datagrams back |
| Datagrams.CoalesceMessages | amneziawg-go/conn/bind_std.go:450-498 | cutting each message gives the input in order without the empty datagrams that join a message, so all of it exactly when none does; then a segment size is set exactly on messages of 2 to 64 datagrams, which respect the payload limit, and a message ends only when it cannot take the next datagram; capacity is never exceeded |
| Datagrams.KeptAll | amneziawg-go/conn/bind_std.go:461-496 | from lengths and capacities alone: every datagram survives exactly when no empty one finds its message within the limit, below 64 datagrams and not ended |
| Datagrams.EmptyIsLost | amneziawg-go/conn/bind_std.go:463-479 | coalescing a one-byte datagram and an empty one gives messages that cut to the first alone |
| Datagrams.EmptyIsKept | amneziawg-go/conn/bind_std.go:463-496 | in the other order both come back |
| Datagrams.PartsAreTheMessage | amneziawg-go/conn/bind_std.go:507-522 | the pieces make up the received message exactly when the segment size does not exceed it |
| Datagrams.SplitOne | amneziawg-go/conn/bind_std.go:523-536 | one message is cut into the slots from n on, or there is an overflow, exactly by the count; slots after it are untouched |
| Datagrams.SplitCoalescedMessages | amneziawg-go/conn/bind_std.go:502-544 | on success slot k holds piece k of what was received, with its sender; success, bad control data and overflow are decided by the received messages alone, so nothing unread is overwritten |
| Datagrams.SplitUndoesCoalesce | amneziawg-go/conn/bind_std.go:450-544 | a coalesced message that arrives as sent is split into the datagrams it was made of |
| UintRanges.OverlapMeans | amneziawg-go/device/noise-types.go:157-162 | two proper ranges overlap exactly when some number is in both |
| UintRanges.PickedIsContained | amneziawg-go/device/noise-types.go:142-145 | the picked header is in the range, also for the full range, whose span wraps to zero |
| UintRanges.TextRoundTrip | amneziawg-go/device/noise-types.go:106-155 | the printed range is read back |
| HeaderConfig.ConfigStore.constructor | amneziawg-go/device/device.go:344-351 | the defaults are a sound configuration |
| HeaderConfig.ConfigStore.AnyOverlap | amneziawg-go/device/uapi.go:828-838 | the pairwise test finds an overlap exactly when two ranges share a number |
| HeaderConfig.ConfigStore.Merge | amneziawg-go/device/uapi.go:824-877 | which of the three outcomes, what is stored in each, and soundness in all: ranges disjoint, paddings at least 12 when a key is set |
| HeaderConfig.ConfigStore.Set | amneziawg-go/device/uapi.go:234-300 | a whole set operation, failed or not, stores what its staged lines merge to and leaves the configuration sound |
| Classify.MaskedTwice | amneziawg-go/device/receive.go:599-603 | masking twice with the same keystream gives the bytes back |
| Classify.OwnKind | amneziawg-go/device/receive.go:605-659 | every message the send path can build, with or without a trailer, is taken for its own kind and unmasked to its bytes, whenever no earlier kind of fitting size reads at another offset |
| Classify.EqualPaddings | amneziawg-go/device/receive.go:136-250 | so with equal paddings always |
| Classify.OwnKindExactly | amneziawg-go/device/receive.go:605-659 | with a key or without, every message of given lengths arrives as itself exactly when no earlier kind of fitting size reads at another offset, for paddings that are equal or at least four apart |
| Classify.AmbiguousIsMistaken | amneziawg-go/device/receive.go:615-657 | otherwise some sendable message of these lengths passes for another kind |
| Classify.Build | amneziawg-go/device/send.go:149-176 | the buffer built in place is padding, message with masked head, and trailer |
| Classify.Receive | amneziawg-go/device/receive.go:136-250 | unmasking in place, type first and the rest after, gives the classified message |
| Limiter.Ratelimiter.Allow | amneziawg-go/ratelimiter/ratelimiter.go:99-137 | the answer is that of a limiter that has seen the same calls and never collected garbage |
| Limiter.Ratelimiter.Cleanup | amneziawg-go/ratelimiter/ratelimiter.go:84-97 | removes exactly the entries older than a second, and no later answer changes |
| Limiter.PermitsArePaid | amneziawg-go/ratelimiter/ratelimiter.go:118-133 | over every run, permits are paid out of the bucket and the time that passes |
| Limiter.WindowBound | amneziawg-go/ratelimiter/ratelimiter.go:14-20 | in any window of length T an address gets at most (maxTokens + T) / packetCost permits, fewer when that is exact |
| Limiter.FourInAnInstant | amneziawg-go/ratelimiter/ratelimiter.go:118-133 | a full bucket lets four packets through in one instant and not a fifth |
| Lru.TouchKeeps | hev-socks5-tunnel/src/hev-mapped-dns.c:102-154 | touching keeps names distinct and the indices exactly those below the length |
| Lru.Retained | hev-socks5-tunnel/src/hev-mapped-dns.c:119-148 | a touched name keeps its index while fewer than max distinct other names are touched |
| Lru.EvictedByMax | hev-socks5-tunnel/src/hev-mapped-dns.c:135-148 | and max distinct new names take every index over |
| MappedDnsTables.New | hev-socks5-tunnel/src/hev-mapped-dns.c:281-302 | constructed exactly when the table fits the host part, in the signed comparison of the source |
| MappedDnsTables.MappedDns.Find | hev-socks5-tunnel/src/hev-mapped-dns.c:102-154 | tree, list and records stay one one-to-one map; the list is the touched list and the result the name's index |
| MappedDnsTables.MappedDns.Lookup | hev-socks5-tunnel/src/hev-mapped-dns.c:261-279 | the name at the address's index, touched, or none exactly when no name has it |
| MappedDnsTables.AddressRoundTrip | hev-socks5-tunnel/src/hev-mapped-dns.c:232-234 | addresses lead back to their indices exactly when the network has no host bits and indices use only host bits |
| MappedDnsTables.ContiguousMask | hev-socks5-tunnel/src/hev-mapped-dns.c:294-295 | a contiguous netmask that passes the constructor gives the latter |
| MappedDnsTables.FindThenLookup | hev-socks5-tunnel/src/hev-mapped-dns.c:261-279 | lookup of the address made from a found index returns the name |
| DnsMessages.DottedIsJoin | hev-socks5-tunnel/src/hev-mapped-dns.c:215-223 | length bytes turned into dots spell the labels joined by dots |
| DnsMessages.PointerIsOwn | hev-socks5-tunnel/src/hev-mapped-dns.c:246 | the answer's pointer is its question's offset exactly when that fits 14 bits (section 4.1.4 of RFC 1035) |
| DnsHandler.ScanName | hev-socks5-tunnel/src/hev-mapped-dns.c:210-225 | finds the name's end inside the message or fails; only its length bytes change |
| DnsHandler.ReadQuestion | hev-socks5-tunnel/src/hev-mapped-dns.c:207-239 | one question; its name is looked for exactly when it asks for an address |
| DnsHandler.AllRetained | hev-socks5-tunnel/src/hev-mapped-dns.c:206-240 | with at most max distinct names in a query, each still has its index at the end |
| DnsHandler.Handle | hev-socks5-tunnel/src/hev-mapped-dns.c:178-259 | inside both buffers for every query; fails exactly when the query is too short, too long, has over 32 questions, runs out of bounds, or the answers do not fit; otherwise header, questions and one answer per address question, byte for byte, whose pointer leads to its own question exactly when that starts below 0x4000 |
| DnsHandler.HandleThenLookup | hev-socks5-tunnel/src/hev-mapped-dns.c:178-279 | the address read from answer j, looked up, is the dotted name of address question j |
| StopProtocol.WritesToOpenSocket | hev-socks5-tunnel/src/hev-socks5-tunnel.c:744-766 | in every interleaving a stop writes only while the event socket is open, and at most one stop owns SYNC_WAIT |
| StopProtocol.NoStopLost | hev-socks5-tunnel/src/hev-socks5-tunnel.c:281-294 | once a stop has returned by way of the socket, a waiting event task has a byte to read, and a run that returns has the flag down |
| StopProtocol.StopStays | hev-socks5-tunnel/src/hev-socks5-tunnel.c:725-726 | SYNC_STOP, once set, stays until a run checks it |
| StopProtocol.StopBeforeInit | hev-socks5-tunnel/src/hev-socks5-tunnel.c:758-763 | a stop that finds SYNC_SEND clear makes the next run return at once |
| StopProtocol.RunKeeps | hev-socks5-tunnel/src/hev-socks5-tunnel.c:652-766 | the invariant behind these holds in every reachable state |

## Left out

- Real cryptography, sockets, tun devices, timers, logging, pools, the Android and Windows glue, and the older copy of amneziawg-go under AndroidLibXrayLite: only plumbing or libraries.
- Cookies, MAC1 and MAC2, junk packets, staging queues, SetPrivateKey and RemovePeer: the handshake model stops at the Noise fields and the peers it was given.
- Interleavings inside one handshake function: each is one atomic step, although the source checks and updates under separate locks.
- Devices.Device.ConsumeMessageInitiation: one reading of the clock stands for the two in the source.
- GroBatch.Batch.HandleGro: TCP window, reserved bits and urgent pointer, IP identification, IPv6 flow label, order against packets that were not candidates, and the virtio header of a dropped item are not claimed; the source does not compare or promise them.
- GroBatch.Batch.HandleGro: buffers have at most 65535 bytes behind the offset and batches at most 128 packets, as the device allocates them (the item pool of a table has one list per packet of such a batch); TCP and UDP items share one record type; the virtio header slot is a value, not its encoded bytes.
- Gso.SegmentVerifies: checksums are characterised for a transport header that follows a whole network header; for csumStart below that length only payload conservation is.
- GsoRead.HandleVirtioRead: the virtio header arrives decoded; the packet has at least the fixed network header of its version, since the source slices the addresses out of it, and the buffers have room for a segment.
- Classify.OwnKindExactly: for paddings that differ by one to three only one direction is proved (`Classify.OwnKind`), since the type fields then overlap and what can be forged depends on the header ranges.
- Devices.Device.Receive: expiry of keypairs by time, the endpoint update and the allowed-source test that follow are not modelled; the packet's padding zeroes are delivered with it.
- AllowedIps.AllowedIPs.Insert: nodes carry addresses as bits, which `IpBytes` ties to bytes; the parent slot is an explicit reference instead of pointer arithmetic.
- Datagrams.CoalesceMessages: control data is the source address and the segment size, with room for both; buffers do not alias.
- Nonces.UniqueFromStart: the plain load before the loop is not a step, since it only makes a sender give up earlier; one keypair at a time.
- HeaderConfig.ConfigStore.Set: lines other than paddings, headers and the header key only succeed or fail, and loads of single settings between two set operations are not interleaved.
- Limiter.Ratelimiter.Allow: calls are atomic, and elapsed times are unbounded, without the saturation after 292 years.
- MappedDnsTables.MappedDns.Find: allocation failure is not modelled; list and tree are a sequence and a map; max is at least one, since a table of size zero is never made.
- DnsHandler.Handle: the request's question count is not also rewritten in host order; it is not read again.
- StopProtocol.RunKeeps: atomics are sequentially consistent, and writes to the socket do not fail.
- Checksum.ChecksumNoFold: the loop's slices are positions in one byte string; both host byte orders are covered.
