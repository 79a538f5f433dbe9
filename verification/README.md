# Verified core of an AF_XDP layer-2 encryptor

This project models the core of the appliance described in CORE.md of the repository, which
encrypts Ethernet frames between one LAN and one WAN interface, and proves properties of that
model in Dafny. It has eight parts.

- **Wire formats and codecs** (`Bytes`, `Limits`, `Wire`, `Codec`). The 13-byte shim, the UDP and data frame
  formats, and the in-place encoders and decoders on the workers' buffers, with their overlapping
  moves. AES-GCM is a pair of functions (`Wire.Cipher`) under the law `Wire.Lawful`: opening undoes
  sealing, only sealed texts open, and sealing adds 16 bytes.
- **Two-fragment protocol** (`Reassembly`, `FragmentRun`, `FragmentOnce`, `FragmentDelivery`). The
  256-entry, 8-probe expiring table refines an unbounded reassembler while no arrival meets a window
  full of other datagrams, and exactly then keeps all of them. Over every run of six sending
  workers, a network that loses, reorders and duplicates frames, noise, restarts and garbage
  collection, what comes out is what some sender put in; without duplication it comes out at most
  once.
- **End to end** (`EndToEnd`, `Journey`). Which packets are split, sent or refused, with which MSS,
  how large the frames are, that the far end restores them, and that it takes nothing else; then
  the same of the bytes in both appliances' frames, from a LAN job through workers, descriptors and
  the wire to the far LAN ring.
- **Rings** (`RingIndex`, `Ring`, `RingSteps`, `XskRing`). The multi-producer ring with 32-bit
  wrapping indices, one shared access per step, refines a bounded FIFO; the AF_XDP rings with cached
  indices never hand out a slot the kernel still owns.
- **Frame economy** (`Frames`, `RxChains`, `RxLeak`, `NicQueues`, `Dataplane`, `Ownership`,
  `OwnershipRounds`). Scatter and gather, receive chains, transmit framing, every exit of the two
  packet paths; in every state of every run of any number of queues and threads each frame has
  exactly one owner.
- **Flow table** (`FlowTable`, `FlowSteps`, `FlowSticky`, `FlowSequence`, `FlowAccounts`, `FlowPlacement`,
  `FlowProgress`, `SeqLru`). Lock-free lookup and locked insert, one shared access per step:
  stickiness, sequence numbers, accounting, placement by hint or load, progress, and the LRU fallback.
- **MSS clamp** (`MssClamp`). The option walk and the incremental checksum (equation 3 of section 3
  of RFC 1624; the MSS option of section 3.2 of RFC 9293).
- **Sleep and wake-up** (`Idle`). No wake-up is lost.

`dafny verify dfyconfig.toml` checks everything.

Some properties that one would expect of the code hold only under a condition. Each is stated with
its exact condition, and with a witness where it fails:

- `MssClamp.ClampKeepsChecksumIff`: the clamped segment's checksum still verifies if and only if the
  MSS value lies at an even offset or its change is a multiple of 257 (`MssClamp.OddOffsetBreaks`).
- `EndToEnd.IcmpNeverSplits`: CORE.md says that oversized ICMP is sent as two fragments; the code
  asks for a sequence number first, ICMP has no flow key, and so every such packet is refused.
- `Frames.WriteKeepsAllIff`: `ne_packet_write` keeps all bytes if and only if no empty descriptor lies
  before the end of the data. If the first one is empty it frees every frame and leaves a packet that
  later code takes for frame 0 (`Frames.EmptyFirstGivesAllBack`).
- `Reassembly.KeepsAllIff`: an arrival leaves every other pending datagram in place if and only if it
  does not meet a window of eight live entries of other datagrams; `FragmentDelivery.SecondHalfDelivers`
  says the same of one datagram, whose second half completes it if and only if it comes within 200
  milliseconds and no such arrival found its first half to be the oldest of the eight.
- `RxChains.ReceiveSafeIff`: behind the XDP programs, which drop packets above 9014 bytes, a receive of
  n descriptors cannot lose a frame if and only if the 68 slots have room for the rejects and for the
  most that n descriptors can add (`RxChains.Worst`). The receive threads skip the release when a batch
  yields no complete packet (src/core/forwarder/forwarder.c:195-206); `RxChains.SkippedReleaseLoses` is
  a stream of packets in short buffers after which five more descriptors lose a frame. The run-level
  claims take room for chain and batch as a hypothesis, which holds after every release.
- `RxLeak.DeadIff`: a skipped release also forgets how many RX slots it owes, since the next receive
  starts that count anew. A queue receives nothing ever again if and only if the slots so lost are all
  it has; a two-buffer packet loses one whenever its buffers are read in two batches and nothing else
  is (`RxLeak.PiecemealKills`).
- `EndToEnd.SingleArrivesIff`: the receiver tells the two formats apart by four bytes, so a packet in
  the data format arrives if and only if its ciphertext does not begin with the marker.
- `SeqLru.NextVictimIff`: after a call the fallback's next replacement is the least recently used flow if
  and only if the 32-bit stamp has not wrapped or a way is still free.
- `RingSteps.SplitCheckIff`: the unlocked count before a split push refuses a ring that has room if and
  only if the consumer overtook it by more than two.

## Model

| member | source | states |
|---|---|---|
| `Wire.ShimRoundTrip` | src/crypto/pqc/pqc_l2_option.c:149-187 | Reading the shim undoes writing it, for every kind, epoch, sequence and datagram id, whatever follows. |
| `Wire.ShimCanonical` | src/crypto/pqc/pqc_l2_option.c:168-187 | Every 13 bytes the reader accepts are exactly the bytes written for what it read. |
| `Wire.OpenUdpFrame` | src/crypto/pqc/pqc_l2_option.c:510-548 | Opening a UDP-format frame gives back shim, addresses, EtherType and plain text; its size is 46 more than the text behind a 14-byte header; the receiver recognises it. |
| `Wire.UdpLayout` | src/crypto/pqc/pqc_l2_option.c:149-166 | The UDP frame byte by byte: marker EtherType, worker, nonce, mark, and a sealed text of version and kind, big-endian epoch, flow sequence number and datagram id, and the plain text. |
| `Wire.OpenDataFrame` | src/core/dataplane/wan_ingress.c:12-19 | The data format restores every packet, and is taken for the UDP format exactly if the ciphertext begins with the marker. |
| `Codec.FragmentSizes` | src/crypto/pqc/pqc_l2_option.c:667-682 | Both fragments are non-empty and their sizes add up; the first has exactly 9014 bytes unless the second then carries a single byte; and both fit 9014 bytes for every packet within the jumbo limit. |
| `Codec.EncryptFragmentSingle` | src/crypto/pqc/pqc_l2_option.c:550-582 | Succeeds exactly with a nonce and enough room, and then leaves the sealed frame of the tail in the second buffer. |
| `Codec.EncryptFragment0` | src/crypto/pqc/pqc_l2_option.c:584-618 | The same for the head, whose plain text is shifted up inside its own buffer. |
| `Codec.Split` | src/crypto/pqc/pqc_l2_option.c:620-696 | Succeeds exactly on IPv4 UDP or ICMP with payload, metadata, nonces and room; the two buffers then hold exactly the two frames of the original packet. |
| `Codec.EncryptUdp` | src/crypto/pqc/pqc_l2_option.c:446-488 | The exact success condition, and the whole-datagram frame in place. |
| `Codec.DecryptUdp` | src/crypto/pqc/pqc_l2_option.c:510-548 | Accepts exactly the authentic, well-formed frames and leaves their packet in the buffer. |
| `Codec.EncryptData` | src/crypto/pqc/pqc_l2_option.c:416-444 | The exact success condition, and the data frame in place. |
| `Codec.DecryptData` | src/crypto/pqc/pqc_l2_option.c:490-508 | Accepts exactly the authentic data frames and restores addresses and EtherType in place. |
| `Reassembly.ReassemblyTable.PickSlot` | src/crypto/pqc/pqc_l2_option.c:204-244 | The probe loop picks the live match, else the first free slot, else the oldest, and clears exactly the expired entries it passed. |
| `Reassembly.ReassemblyTable.StoreFirst` | src/crypto/pqc/pqc_l2_option.c:246-262 | Refuses exactly what exceeds the buffer; otherwise the first half is stored under its key, sequence number and time, and a second half stays exactly if it is a live half of the same datagram and sequence number; no other entry changes. |
| `Reassembly.ReassemblyTable.StoreSecond` | src/crypto/pqc/pqc_l2_option.c:264-275 | The same for the second half, also after the caller's extra clearing of an expired entry. |
| `Reassembly.ReassemblyTable.EmitJoin` | src/crypto/pqc/pqc_l2_option.c:277-303 | The joined packet with its IPv4 EtherType, or none if it would exceed the jumbo limit; the entry is free either way. |
| `Reassembly.ReassemblyTable.Reassemble` | src/crypto/pqc/pqc_l2_option.c:698-757 | One arrival computes exactly `Arrive`, the step the table theorems are about. |
| `Reassembly.ReassemblyTable.CollectGarbage` | src/crypto/pqc/pqc_l2_option.c:305-318 | Exactly the entries older than 200 milliseconds are cleared, wherever the cursor starts. |
| `Reassembly.PickFacts` | src/crypto/pqc/pqc_l2_option.c:204-244 | The picked slot lies in the key's window and is the only one that can hold the datagram; a foreign live entry is picked only if all eight probes are live and foreign. |
| `Reassembly.StoredIff` | src/crypto/pqc/pqc_l2_option.c:698-757 | A fragment is stored, or frees a live entry of its datagram, exactly if it is no larger than 9216 bytes and, as the first one, starts with a whole IPv4 header; otherwise only expired entries go. |
| `Reassembly.LiveIff` | src/crypto/pqc/pqc_l2_option.c:189-202 | An entry is live exactly for 200 milliseconds from its stamp on; a stamp from the future has expired, on unsigned 64-bit differences. |
| `Reassembly.ArriveKeepsInv` | src/crypto/pqc/pqc_l2_option.c:189-275 | Every arrival keeps the table invariant: entries lie in their key's 8-slot window and no datagram has two. |
| `Reassembly.CollectKeepsInv` | src/crypto/pqc/pqc_l2_option.c:305-318 | So does garbage collection. |
| `Reassembly.ArriveRefines` | src/crypto/pqc/pqc_l2_option.c:698-757 | One arrival that does not meet a full window of other datagrams does what the unbounded reassembler does, however many are pending. |
| `Reassembly.KeepsAllIff` | src/crypto/pqc/pqc_l2_option.c:204-244 | The exact condition: after an arrival the table still holds all that the unbounded reassembler holds if and only if the fragment was refused or one of its eight probes was free, expired or its own. |
| `Reassembly.TableRefinesIdeal` | src/crypto/pqc/pqc_l2_option.c:204-318 | Over every run on a monotone clock in which no arrival meets a full window, the table puts out exactly what the unbounded reassembler does. |
| `Reassembly.EightSuffice` | src/crypto/pqc/pqc_l2_option.c:204-244 | That is so, for every hash, while at most eight datagrams are pending at once. |
| `Reassembly.FullWindowEvicts` | src/crypto/pqc/pqc_l2_option.c:231-243 | A new datagram meeting a full window overwrites the one in it that has waited longest. |
| `FragmentRun.JoinRestores` | src/crypto/pqc/pqc_l2_option.c:277-303 | Joining head and tail of a split packet restores it byte for byte. |
| `FragmentRun.JoinRestoresIff` | src/crypto/pqc/pqc_l2_option.c:285-289 | For a splittable packet of any size that happens exactly up to 9216 bytes. |
| `FragmentRun.ReceiveHalf` | src/crypto/pqc/pqc_l2_option.c:814-853 | A fragment frame reaches the table of the worker in its header with exactly the sender's labels and half. |
| `FragmentRun.ReceiveWhole` | src/crypto/pqc/pqc_l2_option.c:829-837 | A whole-datagram frame is delivered at once and leaves the tables alone. |
| `FragmentRun.StepKeepsSafe` | src/crypto/pqc/pqc_l2_option.c:189-318 | Every send, restart, loss, duplication, arrival, noise and collection keeps: stored halves are halves of the one datagram their entry is labelled with. |
| `FragmentRun.RunIsSafe` | src/crypto/pqc/pqc_l2_option.c:698-757 | In every run whose sends use labels not used before, everything delivered equals the datagram sent under that label: no two are ever mixed. |
| `FragmentRun.InitIsSafe` | src/crypto/pqc/pqc_l2_option.c:320-340 | Cleared tables and an empty network satisfy the invariant those runs start from. |
| `FragmentOnce.DisciplineSuffices` | src/crypto/pqc/pqc_l2_option.c:72-77 | With fewer than 2^32 datagrams per worker and epoch and no epoch reused, labels never repeat. |
| `FragmentOnce.FrameDecides` | src/crypto/pqc/pqc_l2_option.c:149-187 | A frame determines its datagram and which half it is. |
| `FragmentOnce.StepKeepsOnce` | src/crypto/pqc/pqc_l2_option.c:698-757 | Every step but duplication keeps: in flight, stored and delivered, a datagram has at most one token per half. |
| `FragmentOnce.RunDeliversAtMostOnce` | src/crypto/pqc/pqc_l2_option.c:698-757 | In every such run without duplication no datagram is delivered twice. |
| `FragmentOnce.InitIsOnce` | src/crypto/pqc/pqc_l2_option.c:320-340 | They also satisfy the token invariant. |
| `FragmentOnce.DisciplinedRunsDeliver` | src/crypto/pqc/pqc_l2_option.c:72-77 | From the cleared state, in every run with fewer than 2^32 datagrams per worker and epoch and no epoch reused, every send uses an unused label, only what was sent is delivered, and without duplication nothing twice. |
| `FragmentDelivery.SecondHalfDelivers` | src/crypto/pqc/pqc_l2_option.c:204-303 | With the halves in either order and any events of other datagrams between, the second arrival yields the original packet if and only if it comes within 200 milliseconds and no arrival between met a full window in which the first half had waited longest. |
| `FragmentDelivery.KeptOrGone` | src/crypto/pqc/pqc_l2_option.c:204-318 | Over such a run a stored half stays as it is, or is gone without a trace exactly if it was displaced. |
| `FragmentDelivery.NoFullWindowDisplacesNone` | src/crypto/pqc/pqc_l2_option.c:231-243 | A run that meets no full window displaces nothing. |
| `FragmentDelivery.ClearedTable` | src/crypto/pqc/pqc_l2_option.c:118-131 | A cleared table stands for the reassembler with nothing pending. |
| `EndToEnd.EncryptToWan` | src/core/dataplane/local_egress.c:53-102 | For every packet up to 9014 bytes the code on the two 9216-byte buffers computes exactly `EgressOf`, every frame is at most 9014 bytes, and no write passes a buffer. |
| `EndToEnd.FramesFit` | src/core/dataplane/local_egress.c:93-100 | Every frame put out is at most 9014 bytes and both fragments carry data. |
| `EndToEnd.UdpSplitsExactly` | src/crypto/pqc/pqc_l2_option.c:801-805 | UDP goes out whole exactly if the whole frame fits 9014 bytes and as two frames otherwise, and the exact condition for refusal. |
| `EndToEnd.IcmpNeverSplits` | src/core/dataplane/local_egress.c:73-77 | ICMP is sent exactly while its data frame fits; the split branch refuses all of it. |
| `EndToEnd.SplitWouldCarryIcmp` | src/crypto/pqc/pqc_l2_option.c:901-908 | The splitter itself takes and restores every such ICMP packet. |
| `EndToEnd.SealedSyn` | src/core/dataplane/local_egress.c:69-71 | A TCP SYN sent, whatever its other flags and options, opens at the far end to the packet with the smaller of its MSS and 9000 less the IP header, 20 and 31; only that word and the checksum differ, and the exact condition for the checksum to stay valid. |
| `EndToEnd.SealedAsItIs` | src/core/dataplane/local_egress.c:69-93 | Every other packet sent as one frame opens to exactly its bytes. |
| `EndToEnd.ParsesBack` | src/core/dataplane/packet_util.c:11-46 | A packet made from a five-tuple, with any IP options and payload, parses to that five-tuple, without ports unless it is TCP or UDP. |
| `EndToEnd.DataSentIffFits` | src/core/dataplane/local_egress.c:93-101 | Everything that is not UDP or ICMP behind a whole IPv4 header is sent exactly while its data frame fits, if its EtherType is IPv4 or a marker and it has 27 bytes. |
| `EndToEnd.SingleArrivesIff` | src/core/dataplane/wan_ingress.c:36-67 | A packet sent as one frame arrives as it was sealed: UDP always, anything else exactly if its ciphertext does not begin with the marker. |
| `EndToEnd.DataAuthentic` | src/core/dataplane/wan_ingress.c:57-62 | A frame that is not of the UDP format yields packet p exactly if it is marked, long enough, names a worker, and what follows its nonce is p from its EtherType on, sealed under that nonce; it never touches a table. |
| `EndToEnd.UdpAuthentic` | src/core/dataplane/wan_ingress.c:49-56 | A UDP-format frame changes a table or yields a packet only if its text is a sealed shim and plain text, and then exactly as these say. |
| `EndToEnd.WholeAuthentic` | src/crypto/pqc/pqc_l2_option.c:829-837 | A sealed whole datagram yields its packet exactly if 20 bytes or more follow the Ethernet header. |
| `EndToEnd.ForgedInvisible` | src/core/dataplane/wan_ingress.c:36-67 | In every stream of arrivals, unmarked frames and those no text seals to leave no trace: tables and packets put out are those of the other frames alone. |
| `EndToEnd.PairArrives` | src/core/dataplane/wan_ingress.c:49-56 | A packet sent as two frames arrives byte for byte, whichever frame comes first and whatever other frames and collections come between, if and only if the second comes within 200 milliseconds and the first half is not displaced in between. |
| `Journey.CrossWhole` | src/core/dataplane/local_egress.c:111-144 | From a LAN job's bytes through worker, transmit descriptors, wire, receive queue and far worker: the far LAN ring gets one packet with exactly the sealed bytes, however the frame was cut into buffers. |
| `Journey.CrossPair` | src/core/dataplane/wan_ingress.c:36-67 | The same for a packet sent as two frames, when the second to arrive crosses: the far LAN ring gets the whole packet exactly if it came in time, the first half was not displaced, the packet fits and the ring has a slot. |
| `Journey.Cross` | src/core/dataplane/wan_ingress.c:36-67 | For any outcome of the crypto layer at both ends: what opening the i-th wire frame gives is what the far ring's packet holds, with the exact condition for there being one. |
| `RingIndex.WrapSlot` | src/core/iface/xdp_interface.c:267-285 | The slot of a wrapped 32-bit index is the slot of the true count, for every power-of-two capacity. |
| `RingIndex.WrapGap` | src/core/iface/xdp_interface.c:335-340 | The 32-bit difference of two indices is their true distance. |
| `Ring.Ring.TryPush` | src/core/iface/xdp_interface.c:267-285 | Appends the element, or leaves the ring alone exactly if it is full. |
| `Ring.Ring.TryPushPair` | src/core/iface/xdp_interface.c:287-310 | Appends both or, exactly if fewer than two slots are free, neither. |
| `Ring.Ring.TryPop` | src/core/iface/xdp_interface.c:312-333 | Takes the oldest element, or nothing exactly if the ring is empty. |
| `Ring.Ring.Count` | src/core/iface/xdp_interface.c:335-340 | With nothing moving between its two loads, the count is the number of elements queued. |
| `Ring.Ring.PushMany` | src/core/iface/xdp_interface.c:369-380 | pool_push appends the longest prefix that fits. |
| `Ring.Ring.PopMany` | src/core/iface/xdp_interface.c:382-393 | pool_pop takes the oldest entries, as many as asked for and present. |
| `RingSteps.StepRefinesFifo` | src/core/iface/xdp_interface.c:267-333 | With any number of locked producers and one lock-free consumer, one memory access per step and across index wraparound, each step is a step of a bounded FIFO; a pair becomes visible at once. |
| `RingSteps.RefusalsAreTrue` | src/core/iface/xdp_interface.c:274-280 | A push is refused exactly if the ring was too full when the tail was read, a pop exactly if it was empty when the head was read. |
| `RingSteps.RunRefinesFifo` | src/core/iface/xdp_interface.c:267-333 | In every run the consumer has taken a prefix of what was published, in order, and the ring holds the rest. |
| `RingSteps.PushAlone` | src/core/iface/xdp_interface.c:267-310 | A push that nobody disturbs appends its one or two elements, or leaves the ring alone exactly if they do not fit, and frees the lock. |
| `RingSteps.PopAlone` | src/core/iface/xdp_interface.c:312-333 | An undisturbed pop takes the oldest element, or nothing exactly if there is none. |
| `RingSteps.FreshRing` | src/core/iface/xdp_interface.c:230-253 | A freshly initialised ring satisfies the invariant those runs start from. |
| `RingSteps.CountIs` | src/core/iface/xdp_interface.c:335-340 | With any steps of others between the two loads, the count is what was pushed at the first less what was popped at the second, and negative as a 32-bit word exactly if the consumer overtook the first load. |
| `RingSteps.ConsumerCountIsSafe` | src/core/iface/xdp_interface.c:1509 | The consumer's own count never exceeds what it can pop. |
| `RingSteps.SplitCheckIff` | src/core/dataplane/local_egress.c:30 | The check before a split push refuses exactly if two slots were missing or the consumer overtook the count by more than two; in the second case it refuses a ring that has room. |
| `XskRing.ProducerRing.NbFree` | include/xdp/xsk.h:92-110 | Never reports more than is free, and the exact number when fewer than asked looked free. |
| `XskRing.ProducerRing.Reserve` | include/xdp/xsk.h:124-133 | Succeeds exactly if that many slots are free of entries the kernel has not consumed. |
| `XskRing.ProducerRing.Fill` | include/xdp/xsk.h:55-77 | Filling a reserved entry touches nothing the kernel may still read. |
| `XskRing.ProducerRing.Submit` | include/xdp/xsk.h:135-141 | Publishes exactly that many reserved entries. |
| `XskRing.ProducerRing.CheckFree` | include/xdp/xsk.h:92-110 | While the kernel takes entries before and after, what the free check reports stays free. |
| `XskRing.ProducerRing.Produce` | src/core/iface/xdp_interface.c:1359-1365 | Reserve, fill and submit with the kernel taking entries between any two accesses: the entries follow the pending ones in order, and it succeeds whenever there was room when it began. |
| `XskRing.ConsumerRing.Peek` | include/xdp/xsk.h:112-153 | Hands over the oldest delivered entries: exactly as many as asked for among those known or, if none are, among all delivered. |
| `XskRing.ConsumerRing.Release` | include/xdp/xsk.h:160-166 | Returns slots without touching unread entries. |
| `Frames.Linearize` | src/core/iface/xdp_interface.c:445-467 | Succeeds exactly if the segments add up to the length and fit, and returns their bytes in order; a packet with a length and no counted bytes reads that many from its first frame on. |
| `Frames.PacketWrite` | src/core/iface/xdp_interface.c:469-520 | For any chain, empty descriptors included: success, segments and pool are exactly `WriteOutcome`, the segments hold the leading bytes, and other frames are untouched. |
| `Frames.WriteFits` | src/core/iface/xdp_interface.c:479-495 | It succeeds exactly if the bytes fit the segments and what the pool can add. |
| `Frames.WriteConserves` | src/core/iface/xdp_interface.c:481-517 | On every exit packet and pool own together exactly what they owned. |
| `Frames.WriteKeepsAllIff` | src/core/iface/xdp_interface.c:506-517 | A successful write keeps all bytes exactly if no empty descriptor lies before their end. |
| `Frames.WriteProper` | src/core/iface/xdp_interface.c:496-519 | Without empty descriptors the packet left has no empty segment, its length is that of its segments, and it can be transmitted. |
| `Frames.EmptyFirstGivesAllBack` | src/core/iface/xdp_interface.c:506-517 | If the first descriptor was empty a successful write frees every frame and leaves a length without segments, which later code takes for frame 0. |
| `Frames.WriteInSteps` | src/core/iface/xdp_interface.c:481-519 | Growing step by step and then filling comes to the same as the whole write. |
| `Frames.WriteThenLinearize` | src/core/iface/xdp_interface.c:445-534 | Linearising what a write accepted returns the source bytes exactly if there was no gap; behind a gap it fails, and after an empty first descriptor it returns foreign bytes. |
| `Frames.TrimFaithfulIff` | src/core/iface/xdp_interface.c:506-517 | For arbitrary capacities the trim keeps all data exactly if no zero-capacity segment lies before its end. |
| `Frames.PacketFree` | src/core/iface/xdp_interface.c:522-534 | Every frame returns to the pool, and the packet is zeroed, so that a second free frees nothing. |
| `RxChains.RxSlot.RecvQueue` | src/core/iface/xdp_interface.c:1117-1172 | The receive loop with its capped reject list computes the fold the chain theorems are about. |
| `RxChains.FoldConserves` | src/core/iface/xdp_interface.c:1128-1170 | Every frame of every descriptor ends in exactly one place: an output, the carried chain or the rejects. |
| `RxChains.BatchConserves` | inc/core/iface/interface.h:93 | From an empty reject list 68 slots always suffice, whatever chain was carried over. |
| `RxChains.OverflowLoses` | src/core/iface/xdp_interface.c:1130-1155 | A batch loses frames exactly if the unlimited reject list outgrows 68. |
| `RxChains.StaysCarried` | bpf/lan.c:37-42 | Behind the XDP programs every receive keeps: a chain of at most four buffers that with what is to come has at most 9014 bytes, so it is rejected only for its number of buffers. |
| `RxChains.WorstBound` | src/core/iface/xdp_interface.c:1117-1172 | Along every admitted stream, what has been rejected and the most that still can be never grow together. |
| `RxChains.ReceiveSafeIff` | src/core/iface/xdp_interface.c:1117-1172 | Before the call: no stream of n descriptors the XDP programs let through loses a frame if and only if rejects and the most that n descriptors can add fit 68, for both programs and every carried chain. |
| `RxChains.FoldProper` | src/core/iface/xdp_interface.c:1128-1170 | From descriptors of one byte to a whole frame only proper packets are put out. |
| `RxChains.SkippedReleaseLoses` | src/core/forwarder/forwarder.c:195-206 | From a clean queue, twelve packets of five short buffers and four buffers of another yield no packet, so the release is skipped; then a receive is safe exactly up to four descriptors, and the rest of that packet in five more loses a frame. |
| `RxLeak.LeakedIsSkipped` | src/core/iface/xdp_interface.c:1174-1186 | Over every run the RX slots no release will give back are exactly those of the batches a further receive came upon unreleased: the number never shrinks. |
| `RxLeak.DeadIff` | src/core/iface/xdp_interface.c:1174-1186 | A queue receives nothing in any further run if and only if the slots so lost are all its slots. |
| `RxLeak.PiecemealLeaks` | src/core/iface/xdp_interface.c:1214 | A packet of two buffers read in two batches is put out whole, and its first slot is lost. |
| `RxLeak.PiecemealKills` | src/core/forwarder/forwarder.c:195-206 | One fewer such packets than slots, and the first buffer of one more, leave a queue of any size dead. |
| `RxChains.FoldIsParse` | src/core/iface/xdp_interface.c:1117-1172 | The loop computes the reference parse of the stream and carries over exactly its unfinished rest. |
| `RxChains.BatchIndependence` | src/core/iface/xdp_interface.c:1117-1172 | For every cut of the stream into batches, all outputs together are the reference parse of the whole. |
| `RxChains.TxParsesBack` | src/core/iface/xdp_interface.c:1503-1545 | Parsing the descriptors the transmitter emits returns the same packets in order. |
| `NicQueues.Refill` | src/core/iface/xdp_interface.c:1345-1368 | While the kernel takes entries between any two accesses, exactly the smallest of 64, the free slots seen and the pool's length is moved, and fewer than 64 are seen only if no more are free; frames move in order and none is lost. |
| `NicQueues.KernelReceive` | include/xdp/xsk.h:92-110 | The environment assumption on reception: the kernel takes the oldest fill-ring frame and delivers it. |
| `NicQueues.Receive` | src/core/iface/xdp_interface.c:1197-1224 | For any remaining budget and while the kernel delivers: the oldest descriptors, all that are visible up to the budget, go through the receive loop in order, and every frame is in an output, the chain or the reject list. |
| `NicQueues.ReleaseRx` | src/core/iface/xdp_interface.c:1174-1186 | Rejected frames all reach the pool; unread descriptors stay. |
| `NicQueues.KernelSend` | include/xdp/xsk.h:112-122 | The environment assumption on transmission: the oldest frame moves from the TX ring to the completion ring. |
| `NicQueues.DrainCq` | src/core/iface/xdp_interface.c:1286-1301 | While the kernel goes on sending: it stops only when nothing it knows of is left, takes all that was visible when it began, and completions reach the pool in order and are released. |
| `NicQueues.TxOne` | src/core/iface/xdp_interface.c:1509-1545 | While producers push and the kernel sends, a packet goes to the kernel unless the ring was empty when counted or fewer than four slots were free when checked; the reservation after that check succeeds. |
| `NicQueues.TxDrain` | src/core/iface/xdp_interface.c:1503-1552 | Under the same progress the kernel gets exactly the descriptors of the packets popped, in order; it stops only after 32, at an empty ring or for want of four slots, so at least n packets go out whenever n of at most 32 were queued and the TX ring had room for 4n entries. |
| `NicQueues.TxStreamToIs` | src/core/iface/xdp_interface.c:1531-1543 | They carry exactly the packets' frames and are the stream that parses back. |
| `Dataplane.RingPush` | src/core/dataplane/packet_util.c:48-56 | The packet is on the ring, or exactly if too long or the ring is full its frames are in the pool. |
| `Dataplane.ProcessWan` | src/core/dataplane/wan_ingress.c:36-67 | A packet reaches the LAN ring exactly if there is one LAN, decryption yields a packet, its bytes fit and the ring has a slot, and holds exactly those bytes; on every other exit the job's frames are in the pool. |
| `Dataplane.PushSplit` | src/core/dataplane/local_egress.c:23-51 | Both fragments go on the ring together exactly if the unlocked count allows it, both lengths do and two slots are free; otherwise the tail's frames return and the head stays with the caller. |
| `Dataplane.SendPair` | src/core/dataplane/local_egress.c:79-91 | Both frames are on the ring, with exactly their bytes, exactly if the first fits job and pool, the second fits what the first has left, and the push succeeds; otherwise all frames are in the pool. |
| `Dataplane.SendSingle` | src/core/dataplane/local_egress.c:93-101 | The frame is on the ring exactly if it is within the wire limit, its bytes fit and a slot is free; otherwise its frames are in the pool. |
| `Dataplane.ProcessLocal` | src/core/dataplane/local_egress.c:111-144 | The encrypted bytes reach the WAN ring exactly if there is one WAN and the outcome of the crypto layer can be put there; on every other exit the job's frames are in the pool. |
| `Dataplane.OwnershipSuffices` | src/core/iface/xdp_interface.c:409-413 | Exclusive ownership implies that the pool has room and shares no frame with the packet. |
| `Ownership.StepConserves` | src/core/iface/xdp_interface.c:369-413 | Every pool access, ring access, receive, release, growing, filling, push, submit and kernel step of any queue, receiver, worker or ring keeps the number of owners of every frame and every packet well-formed. |
| `Ownership.OneOwner` | src/core/iface/xdp_interface.c:369-413 | In every state of every run of any number of queues, receivers, workers and rings each frame has exactly one owner. |
| `Ownership.PoolHasRoom` | src/core/iface/xdp_interface.c:369-380 | Whatever an owner holds fits the pool: pool_push never truncates. |
| `Ownership.WorkerCanWork` | src/core/dataplane/local_egress.c:111-144 | In every such state a worker's packet is proper, shares no frame with the pool and fits it: the conditions under which both packet paths are proved. |
| `Ownership.RingsAreSendable` | src/core/iface/xdp_interface.c:1509-1545 | Every ring holds only packets the transmitter can frame. |
| `Ownership.QueueCanReturn` | src/core/iface/xdp_interface.c:1174-1186 | The pool has room for a queue's rejects, and for its completions and everything it is sending. |
| `OwnershipRounds.ComesIn` | src/core/iface/xdp_interface.c:1345-1368 | Refill, reception, receive, dispatch and pop carry a frame from the pool to a worker, state by state. |
| `OwnershipRounds.GoesOut` | src/core/iface/xdp_interface.c:469-520 | Growing, filling, push, transmission and completion carry it and the frame grown back to the pool. |
| `OwnershipRounds.ComesBack` | src/core/dataplane/local_egress.c:79-91 | Of a refused pair both frames return to the pool, one by one. |
| `OwnershipRounds.DroppedComesBack` | src/core/forwarder/forwarder.c:303-312 | So does the frame of a packet refused at dispatch. |
| `OwnershipRounds.RejectedComesBack` | src/core/iface/xdp_interface.c:1174-1186 | And one that the receive loop rejected, with the release. |
| `FlowTable.KeyIsCanonical` | src/core/dataplane/crypto_route.c:153-188 | Two flows have one key exactly if one is the other or its reverse, and key with direction determines the flow. |
| `FlowTable.LeastLoadedIsLeast` | src/core/dataplane/crypto_route.c:239-256 | Wherever the cursor stands the choice is a least loaded one. |
| `FlowTable.TiesGoRoundRobin` | src/core/dataplane/crypto_route.c:242-254 | Every slot between the cursor and the choice is strictly busier than the choice. |
| `FlowTable.PickLeastLoaded` | src/core/dataplane/crypto_route.c:239-256 | The loop on 32-bit indices computes that choice. |
| `FlowSticky.StepKeepsInv` | src/core/dataplane/crypto_route.c:258-326 | Every step of every thread keeps: one lock owner, unique keys in their own sets, unpublished entries seen by nobody, and every completed lookup still what the table says. |
| `FlowSticky.LookupsAreSticky` | src/core/dataplane/crypto_route.c:258-326 | In every run of any number of threads two completed lookups of one flow, with any hints, returned the same worker and TX slot, saturated sets included, and both exist. |
| `FlowSticky.OthersAreHashed` | src/core/dataplane/crypto_route.c:296-303 | In every run a lookup answered without an entry was answered with the key's hash modulo workers and active TX slots, and its set is full of other flows. |
| `FlowSticky.DirectionsShareRoute` | src/core/dataplane/crypto_route.c:153-188 | So do lookups of the two directions of a flow. |
| `FlowSequence.StepKeepsSeq` | src/core/dataplane/crypto_route.c:377-400 | Every step keeps: resident counters equal the numbers served, and a flow served by the fallback can never become resident. |
| `FlowSequence.SequencesAreConsecutive` | src/core/dataplane/crypto_route.c:365-432 | In every run the n-th number the table serves to one direction of a flow is n modulo 2^32, and no flow is served by both table and fallback. |
| `FlowAccounts.StepKeepsAccounts` | src/core/dataplane/crypto_route.c:300-325 | Every step keeps counters equal to published entries plus the insertion in progress, loads balanced and cursors equal to insertions. |
| `FlowAccounts.AccountsBalance` | src/core/dataplane/crypto_route.c:239-256 | In every reachable state counters equal the entries assigned, active TX loads differ by at most one, and the cursors never pass the table's capacity; the workers' loads are in `FlowPlacement.WorkersBalance`. |
| `FlowPlacement.StepKeepsPlacement` | src/core/dataplane/crypto_route.c:305-325 | Every step keeps: the lock owner's choice is the hinted worker or the first least loaded one from the cursor on, and so its TX slot. |
| `FlowPlacement.PlacementFollowsCalls` | src/core/dataplane/crypto_route.c:305-325 | In every run whoever publishes a flow does it for a call made with that key, on the worker of its hint if that is 0 to 5 and else on one that no other had fewer flows than, ties from the cursor on, in the first free way of the set; and so for the TX slot. |
| `FlowPlacement.WorkersBalance` | src/core/dataplane/crypto_route.c:308-311 | In every run without a hint in range the workers' loads differ by at most one. |
| `FlowProgress.CompletesAlone` | src/core/dataplane/crypto_route.c:258-326 | From every reachable state in which nobody else holds the insert lock, a thread that runs alone answers its call within 74 accesses and leaves the lock free. |
| `FlowProgress.EstablishedIsLockFree` | src/core/dataplane/crypto_route.c:270-281 | A lookup of a flow in the table is answered within 74 accesses of its thread alone, whoever holds the insert lock, without touching it. |
| `SeqLru.VictimIsOldest` | src/core/dataplane/crypto_route.c:409-422 | The fallback replaces a free way while there is one and otherwise the least recently used. |
| `SeqLru.LruSet.Search` | src/core/dataplane/crypto_route.c:409-422 | The scan finds the flow's way or the way to replace. |
| `SeqLru.LruSet.Next` | src/core/dataplane/crypto_route.c:402-432 | The code does exactly one `NextWays` step, whatever the stamp. |
| `SeqLru.NextRefines` | src/core/dataplane/crypto_route.c:402-432 | The number served is the one the list in order of use serves; until the stamp wraps the ways go on as that list. |
| `SeqLru.NextVictimIff` | src/core/dataplane/crypto_route.c:416-427 | After any call the next replacement is the right one exactly if the stamp has not wrapped or a way is still free. |
| `SeqLru.RepresentsLater` | src/core/dataplane/crypto_route.c:134-136 | The shared stamp may run on for other sets between two calls. |
| `SeqLru.RunRefines` | src/core/dataplane/crypto_route.c:402-432 | Over every run until the stamp wraps, with other sets advancing it in between, the ways do what the list does. |
| `SeqLru.ConsecutiveWhileRetained` | src/core/dataplane/crypto_route.c:402-432 | On the stamped ways: while at most three other flows of its set are active in between, a flow's fallback numbers stay consecutive. |
| `MssClamp.ZeroFoldsToOnes` | src/crypto/common/eth_parse.c:124-125 | The carry loop folds a sum to sixteen ones exactly if the sum is one's complement zero. |
| `MssClamp.ReplaceWord` | src/crypto/common/eth_parse.c:114-129 | Only the checksum field changes, to the incremental update. |
| `MssClamp.WalkOptions` | src/crypto/common/eth_parse.c:180-213 | The walk finds the first well-formed MSS option or stops. |
| `MssClamp.WalkFindsFirst` | src/crypto/common/eth_parse.c:182-213 | On every well-formed option list, whatever follows its end-of-list byte, the walk finds exactly the first MSS option and its value. |
| `MssClamp.PlanIs` | src/crypto/common/eth_parse.c:146-216 | For every whole TCP header with any flags and any option list: the packet is rewritten exactly if its EtherType is 0x0800, version 4, protocol 6, the header has 20 bytes, the SYN bit is set and the first MSS exceeds the cap, with that place and cap; otherwise it fails or stays exactly as the conditions say. |
| `MssClamp.AreaLists` | src/crypto/common/eth_parse.c:182-213 | Every option area, malformed ones included, is such a list, up to its end, an end-of-list byte or a cut option. |
| `MssClamp.PlanCutOff` | src/crypto/common/eth_parse.c:156-170 | Without a whole TCP header the packet fails, unless its first 20 bytes are there and the SYN bit is not set. |
| `MssClamp.ClampMss` | src/crypto/common/eth_parse.c:131-216 | Result and buffer are exactly those of `PlanOf` and `Clamped`, on every branch. |
| `MssClamp.ClampKeepsChecksumIff` | src/crypto/common/eth_parse.c:114-129 | For every pseudo-header and segment end, a segment that verified still does exactly if the value is aligned or changed by a multiple of 257. |
| `MssClamp.ClampKeepsTcpChecksumIff` | src/crypto/common/eth_parse.c:114-129 | The same with the packet's own pseudo-header and total length: a SYN with a valid checksum has one after the clamp exactly under that condition. |
| `MssClamp.OddOffsetBreaks` | src/crypto/common/eth_parse.c:198-211 | A SYN between two real addresses whose valid checksum the clamp breaks. |
| `MssClamp.ClampTouches` | src/crypto/common/eth_parse.c:199-209 | Only the MSS and checksum bytes can change. |
| `MssClamp.ClampTwice` | src/crypto/common/eth_parse.c:131-216 | A second clamp changes nothing and says so. |
| `MssClamp.FullSegmentFits` | src/core/dataplane/local_egress.c:69-71 | A segment filled to the advertised MSS fits 9014 bytes once sealed. |
| `Idle.StepKeepsInv` | src/core/dataplane/idle.c:105-149 | Every step keeps: a ring seen empty since arming and no longer empty has a signal pending or a producer about to raise one. |
| `Idle.BlockedIsWoken` | src/core/dataplane/idle.c:172-230 | In every run a consumer blocked in poll with work in a rechecked ring is signalled now, or after the one or two steps a producer is in the middle of. |
| `Idle.WokenResumes` | src/core/dataplane/idle.c:172-230 | Once signalled, the consumer is back at work after four steps of its own, with the signal taken and the flag down. |
| `Idle.AwakeIsQuiet` | src/core/dataplane/idle.c:105-149 | While the consumer is not armed, whatever is pushed raises no signal. |
| `Idle.UncheckedIsLost` | src/core/forwarder/forwarder.c:257-264 | Were some ring not rechecked after arming, a run would lose a wake-up. |
| `Idle.NoLostWakeUpIff` | src/core/forwarder/forwarder.c:331-344 | No run loses a wake-up exactly if every ring is rechecked between arming and polling. |

## Left out

- AES-GCM, nonce generation and session loading: foreign code; a seal/open pair under a stated law, and an optional nonce for every failure.
- Hash quality: the two hashes are arbitrary functions of their keys (`Reassembly.Mix` is the table's own hash, as an instance).
- Hardware memory ordering: steps are sequentially consistent single accesses, with the publishing store as the boundary.
- Under the insert lock, the rescan and the two least-loaded scans are one step per way and one step per scan: nobody else writes what they read. A lock-free scan loads `valid` and reads the entry in two steps.
- Routes of packets without a flow key: a plain hash of their first bytes, with no state.
- A change of the active TX-slot count while flows are established; it is fixed in `FlowSteps.Config`.
- UMEM addresses are frame numbers: that the kernel hands back frame bases, and lengths inside the frame, is an assumption.
- Descriptors of length zero: excluded from runs, where the kernel delivers at least one byte; the `Frames` members say what becomes of them in a write.
- Frames.PacketWrite: takes packets with a segment count, as the receiver builds them; a length without one arises only from an empty first descriptor.
- Ownership.OneOwner: assumes that a receive happens only when the reject list has room for the chain and every descriptor, which holds after every release; the accesses inside one ring or queue operation are in `RingSteps` and `XskRing`.
- The branches behind checks that already rule them out: a failed reservation after the free check, a malformed packet on a transmit ring.
- `& mask` on power-of-two capacities is written as a remainder.
- SeqLru.LruSet.Next: models one of the 256 sets of a worker; the stamp is passed in and out because the sets share it.
- EndToEnd.EncryptToWan: takes packets of at most 9014 bytes, the limit of the LAN filter (bpf/lan.c:37-42); the data encoder does not check its buffer for longer ones.
- The coarse clock of arrivals against the clock of garbage collection: one monotone time input stands for both.
- Tagged VLAN frames: the code keeps them in the kernel path, so the Ethernet prefix is always 12 bytes.
- The loops of a receive over several sockets: `NicQueues.Receive` is one of them with any remaining budget. The thread of `RxLeak` serves one queue; with several, the release follows if any of them completed a packet.
- Whether a kernel publishes the buffers of one packet apart: the RX members hold for every way of cutting the stream into batches.
- Journey.Cross: the frames of packets queued for the NIC stay as they are until it has read them (each has one owner by `Ownership.OneOwner`), and the far receive queue starts from a clean chain; other traffic at the far end enters through its tables.
- XDP attachment, opening and closing, ethtool and sysfs access, statistics, thread start-up, pinning and signals: plumbing without a protocol of its own.
- Busy-poll mode and the timing thresholds before arming: they never block.
