# Verified model of wg-frag-go

wg-frag-go carries inner IP packets through WireGuard as DATA records packed into
carrier payloads. This project models its operating-system independent core in
Dafny and proves what the pieces promise, alone and together.

* **DATA path.** Wire records (`Wire`), fragment planning and splitting
  (`Packing`), the packetizer (`Packetizers`), the reassembler with its
  open-addressed key index, free list, quotas and handles (`PoolSpec`,
  `ProbeIndex`, `Reassembly`, `PoolTheorems`, `PoolLaws`), the round trip alone, in a
  pool with room, and from a batch of packets to what a receiver completes
  (`RoundTrip`, `QuietPool`, `EndToEnd`), where completed bytes come from
  (`Provenance`), the modular reorder queue (`Reorder`, `LaneLaws`, `Reorderers`), and
  the receiver that joins reassembly, 256 reorder lanes, one budget, one cached
  deadline and the source check (`ReceiverSpec`, `Delivery`, `Accounts`, `Budget`,
  `Receivers`). Lane sequence reuse on the sending side is `Senders`.
* **Path MTU discovery.** The search as a state machine over all its events
  (`PmtuSpec`), its safety, termination and convergence (`PmtuTheorems`), its times
  and sizes event by event (`PmtuLaws`), and the object that runs it (`Pmtu`). It
  follows section 5.3 (search) and section 4.3 (black hole detection) of RFC 8899.
* **Indexes.** The AllowedIPs trie against longest-prefix match (`AllowedIps`),
  the indexed heap of tombstones against a map of deadlines (`ExpirySets`).
* **Queues.** Fixed rings (`Ring`), CONTROL admission, token buckets and round
  robin (`ControlSpec`, `ControlRate`), the rate and fairness of whole scheduler
  runs (`ControlRuns`, `ControlShares`), the scheduler itself (`ControlSchedulers`),
  the DATA ring (`DataRings`) and the arbitration between both (`Drain`).
* **Reconfiguration.** The incremental peer program against full replacement
  (`PeerDiff`, `PeerUpdates`), and the idempotent mutation protocol over all
  interleavings (`MutationSpec`, `MutationTheorems`, `Mutations`).

`dafny verify dfyconfig.toml` checks everything.

## How the model reads

Objects that the source updates in place are classes. Most of them have a ghost
field or function that gives their abstract value, and each method states the new
value as a specification function of the old one; the theorems are about those
functions, over every run. Laws beside them say what the main ones do in terms of
bytes, numbers, times and positions alone, without the helpers that a class shares
with its specification. Time is an integer (nanoseconds) with an explicit "none"
where the source uses the zero time. Sequence numbers and carrier sizes are 32-bit
with the wrap written out. Tokens are `real`. The key hash is an arbitrary
function, so the index proofs hold for every hash. Callbacks (carrier emitter,
packet sink, framing of CONTROL messages, the runtime behind an interface) are
functions that answer each call, so a theorem over all of them covers every
pattern of failures. Each section that the source runs under a lock is one atomic
step.

Four modelling decisions are worth knowing.

* All fields of the path MTU `State` live in one record that its methods update.
* The byte slab of the DATA ring is one row of bytes per slot, and a slot of the
  reassembler owns its buffer; the multiplication by the stride does not appear.
* The well-formedness predicates of the reassembler, the receiver and the packetizer
  are closed: they unfold only where a proof mentions `Wire.Look`, which the lemmas
  `Opens` and `Seals` do. `Look` is always true, so nothing else depends on it.
* Positions in rings are computed with a conditional subtraction;
  `Ring.SlotIsRemainder` shows that this is the remainder the source writes.

Where the code and its comments differ, the model follows the code. The doc comment
of `AdjustCurrent` speaks of sizes just below the request, while the code accepts
any size between BASE and the ceiling. `PmtuTheorems.ConfirmingProbeCarries` states
exactly what follows for every run, and `PmtuTheorems.AdjustedConfirmationConfirmsMore`
exhibits a run. The doc comment of `WireGuardDatagramSize` promises the UDP payload
size for every carrier payload; `PmtuTheorems.CanonicalFillsItsDatagram` says where
its 32-bit sum wraps and `PmtuTheorems.DatagramSizeWraps` exhibits an input. No
carrier payload reaches it: they are at most 65535 bytes
(`PmtuTheorems.CarriersFillTheirDatagrams`).

Two properties that one might expect do not hold, and the model says exactly when
they do. A search size is tried three times, but the probe that is to confirm an
upgrade only once, so one stray loss keeps the smaller size until the next refresh
(`PmtuTheorems.SearchConverges`; `PmtuTheorems.LostConfirmationKeepsSize` exhibits an
input). A peer's share of the CONTROL queue bounds its critical messages only while it
queues no probes beside them, since a critical message takes the place of the peer's
own probe also at the share (`ControlShares.ShareIsKept`;
`ControlShares.ProbeMakesRoomBeyondShare` exhibits a run).

## Model

| member | source | states |
|---|---|---|
| Wire.DecodeEncode | internal/core/carrier/record.go:46-97 | decoding an encoded valid record, whatever follows it, gives the record back and consumes exactly its bytes |
| Wire.EncodeDecode | internal/core/carrier/record.go:69-97 | what decodes is a valid record whose encoding is exactly the bytes consumed, so the wire form is canonical |
| Wire.DecodeIffLaidOut | internal/core/carrier/record.go:69-97 | a buffer decodes to a record of n bytes if and only if its first n bytes are that record byte by byte: total length, index and count as the halves of one byte, lane, session, sequence and offset big-endian, then the data, each within its range |
| Wire.EncodeIsLaidOut | internal/core/carrier/record.go:46-64 | the encoding has this layout, stated in arithmetic on each byte |
| Wire.ParseIffEncoded | internal/core/carrier/record.go:103-121 | a payload parses to a list of records if and only if it is the concatenation of their encodings and the list is non-empty and valid |
| Wire.DataIsNotControl | internal/core/carrier/record.go:46-64 | a DATA payload starts with a non-zero length, so it is never taken for CONTROL |
| Wire.MarshalTo | internal/core/carrier/record.go:46-64 | on success the bytes at the position are the record byte by byte and in range, and equal its encoding; the rest of the buffer is left alone, and any error changes nothing |
| Wire.Parse | internal/core/carrier/record.go:103-121 | visits exactly the records before the first undecodable one and reports that one's error |
| Packing.CeilDivFormula | internal/core/packing/plan.go:59-64 | the rounding-up division is the usual formula for all operands |
| Packing.RefusedIffTooLong | internal/core/packing/plan.go:23-57 | a packet is refused for fragment count exactly when it does not fit 16 full records |
| Packing.PlanIsTight | internal/core/packing/plan.go:23-57 | a plan starts in the tail exactly if the tail holds a header and the minimum fragment and the count stays within 16; the first record fills the tail or is the packet, and one record fewer would not hold the packet |
| Packing.MinimumNeverRefuses | internal/core/limits/limits.go:20-43 | with the minimum carrier payload of an MTU no packet up to that MTU is refused, from any fill level |
| Packing.ValidatedNeverRefuses | internal/core/limits/limits.go:34-43 | a carrier payload that passes validation for an MTU refuses no packet up to that MTU |
| Packing.ValidatedExactly | internal/core/limits/limits.go:20-43 | a carrier payload passes validation exactly if the MTU is between 1280 and 9612, the payload at least 613, and 16 records of it hold the MTU |
| Packing.PlanWithinRingShare | internal/wgadapter/shimtun/device.go:70-83 | a plan never opens more carriers than the ring share computed for the MTU, tail starts and the 16-fragment clip included |
| Packing.RingShareMonotone | internal/wgadapter/shimtun/device.go:70-83 | a larger MTU never has a smaller share |
| Packing.RingShareIsNeeded | internal/wgadapter/shimtun/device.go:70-83 | a packet of the MTU that starts in an empty carrier needs the whole share |
| Packing.SplitJoins | internal/core/fragment/fragment.go:52-113 | the data of a split, joined in index order, is the packet |
| Packing.SplitIsValid | internal/core/fragment/fragment.go:52-113 | every record of a split is encodable |
| Packing.EmptyCarrierAdmits | internal/core/fragment/fragment.go:52-113 | what an empty carrier refuses is refused at every fill level |
| Packing.SplitExactly | internal/core/fragment/fragment.go:52-85 | a packet is split exactly if it is between 1 and 9612 bytes long, has a session, and 16 records of a carrier of at most 65535 bytes hold it |
| Packing.CutAll | internal/core/fragment/fragment.go:86-113 | the cutting loop fills the output with a tiling of the packet, the first record as planned and every record but the last full |
| Packing.Split | internal/core/fragment/fragment.go:52-113 | either an error of the checks, with the output untouched, or a split of the packet: it starts in the tail exactly if that holds the minimum fragment within 16 records, with at least that much of the packet in it, and all records between the first and the last are full |
| Packetizers.CarrierRoundTrip | internal/core/packetizer/packetizer.go:86-154 | an emitted carrier fits, is not empty, is not CONTROL, and parses back to its records with nothing left over |
| Packetizers.Packetizer.constructor | internal/core/packetizer/packetizer.go:61-67 | a fresh packetizer has emitted nothing and holds nothing |
| Packetizers.NewPacketizer | internal/core/packetizer/packetizer.go:49-68 | refuses exactly the unusable payloads, buffers, minimum fragments and a missing emitter, with the error of the first check that fails |
| Packetizers.Packetizer.Flush | internal/core/packetizer/packetizer.go:142-154 | emits the open carrier once; if the emitter refuses, the carrier stays for a retry |
| Packetizers.Packetizer.Reset | internal/core/packetizer/packetizer.go:77-80 | drops the open carrier only |
| Packetizers.Packetizer.Add | internal/core/packetizer/packetizer.go:86-138 | on success the log grows by exactly a split of the packet; it joins the open carrier exactly if the tail is worth it, else that carrier is emitted as it is; carriers opened stay within its share; on refusal by the checks nothing changes |
| Packetizers.PackBatch | internal/core/packetizer/packetizer.go:86-154 | k Adds and a Flush emit carriers whose records are the splits in order, and at most k times the ring share of them |
| Packetizers.RepeatedIsProduct | internal/wgadapter/shimtun/device.go:1354-1401 | the bound of a batch is the number of packets times the share |
| ProbeIndex.ProbeStops | internal/core/reassembly/reassembly.go:345-360 | a probe that meets an empty cell has passed every place where the key could be |
| ProbeIndex.Insert | internal/core/reassembly/reassembly.go:481-496 | filling the first empty cell keeps all probe chains free of holes |
| ProbeIndex.StartDelete | internal/core/reassembly/reassembly.go:514-529 | emptying a cell leaves one hole that only entries behind it can notice |
| ProbeIndex.SkipEntry | internal/core/reassembly/reassembly.go:514-529 | an entry whose home lies after the hole may stay |
| ProbeIndex.MoveEntry | internal/core/reassembly/reassembly.go:514-529 | moving an entry into the hole moves the hole and loses no entry |
| ProbeIndex.FinishDelete | internal/core/reassembly/reassembly.go:514-529 | when the shift meets an empty cell the index is whole again, without the deleted key |
| ProbeIndex.HasEmpty | internal/core/reassembly/reassembly.go:449-464 | the table always has an empty cell, so every probe ends |
| Reassembly.KeyIndexSize | internal/core/reassembly/reassembly.go:449-464 | the least power of two of at least twice the slots, or none when it would not fit |
| Reassembly.ContiguousLength | internal/core/reassembly/reassembly.go:579-603 | accepts exactly when the fragments tile a range from 0 without gap or overlap, and returns its length |
| Reassembly.Reassembler.constructor | internal/core/reassembly/reassembly.go:139-155 | a fresh reassembler refines the pool of free slots |
| Reassembly.NewReassembler | internal/core/reassembly/reassembly.go:127-156 | refuses exactly the unusable configurations |
| Reassembly.Reassembler.FindKey | internal/core/reassembly/reassembly.go:345-360 | the probe loop finds the slot of the key, or none, for every hash |
| Reassembly.Reassembler.InsertKey | internal/core/reassembly/reassembly.go:481-496 | the probe loop always finds a cell and keeps the index faithful |
| Reassembly.Reassembler.DeleteKeyPosition | internal/core/reassembly/reassembly.go:514-529 | the shift loop ends and removes exactly one key |
| Reassembly.Reassembler.RemoveKey | internal/core/reassembly/reassembly.go:498-512 | removes the key of a slot and no other |
| Reassembly.Reassembler.TakeFreeSlot | internal/core/reassembly/reassembly.go:395-408 | pops the list of free slots; the panic is unreachable |
| Reassembly.Reassembler.ClearSlot | internal/core/reassembly/reassembly.go:429-447 | frees one slot, its key and its quota, and nothing else |
| Reassembly.Reassembler.AllocateSlot | internal/core/reassembly/reassembly.go:362-381 | takes a free slot or replaces the oldest of the peer or of all, as specified |
| Reassembly.Reassembler.ReplaceSlot | internal/core/reassembly/reassembly.go:383-391 | the slot just cleared is the one taken; the panic is unreachable |
| Reassembly.Reassembler.JudgeFragment | internal/core/reassembly/reassembly.go:197-245 | accepted, duplicate, complete or rejected, with the error the specification gives |
| Reassembly.Reassembler.Accept | internal/core/reassembly/reassembly.go:160-252 | keeps the object valid and is the pool step of the specification, result and error included; the laws of that step (PoolLaws, RoundTrip, QuietPool) name only times, keys and bytes |
| Reassembly.Reassembler.Expire | internal/core/reassembly/reassembly.go:256-268 | clears exactly the assembling slots opened a lifetime or more ago, leaves every other as it is, and returns how many they were |
| Reassembly.Reassembler.PurgePeer | internal/core/reassembly/reassembly.go:273-298 | clears exactly the peer's assembling slots, detaches exactly its completed ones, leaves every other as it is, and returns how many they were |
| Reassembly.Reassembler.Release | internal/core/reassembly/reassembly.go:302-314 | frees exactly the completed slot of a current handle, else reports a stale handle and changes nothing |
| PoolTheorems.StepKeepsInv | internal/core/reassembly/reassembly.go:160-314 | every operation keeps shapes, exact free list, distinct keys, settled fragments and quotas |
| PoolTheorems.FreshIsInv | internal/core/reassembly/reassembly.go:127-156 | a fresh pool satisfies the invariant |
| PoolTheorems.CompletedBytesAreStable | internal/core/reassembly/reassembly.go:273-314 | over any run that does not release it, a completed packet keeps its handle, key and bytes, whatever is purged or sent late |
| PoolTheorems.SpentForever | internal/core/reassembly/reassembly.go:302-314 | a handle that is not releasable now never becomes releasable |
| PoolTheorems.ReleasedAtMostOnce | internal/core/reassembly/reassembly.go:302-314 | after a successful release of a handle, every later release of it fails, over every run |
| PoolTheorems.AcceptCompletesItsOwn | internal/core/reassembly/reassembly.go:231-252 | a completed result is the packet of the slot with the record's own key |
| PoolLaws.ExpireExactly | internal/core/reassembly/reassembly.go:256-268 | expiry clears a slot if and only if it is assembling and its first record came a lifetime or more before now; every other slot stays as it is |
| PoolLaws.ExpireCounts | internal/core/reassembly/reassembly.go:256-268 | and counts the set of these slots |
| PoolLaws.PurgeExactly | internal/core/reassembly/reassembly.go:273-298 | a purge clears exactly the peer's assembling slots and detaches exactly its completed ones |
| PoolLaws.PurgeCounts | internal/core/reassembly/reassembly.go:273-298 | and counts the set of these slots |
| PoolLaws.EvictsOldest | internal/core/reassembly/reassembly.go:362-427 | a slot is taken from another packet only at the peer's quota, then among its own, or in a full pool; it is assembling, and none that could be taken was opened before it |
| PoolLaws.RefusedExactly | internal/core/reassembly/reassembly.go:316-343 | a record reaches a slot exactly if its peer is known, its session not zero, its session, lane and sequence the key's, its place one of at most 16 and its bytes within a packet; else the first of these that fails is the error |
| PoolLaws.IllFormedDropsItsOwn | internal/core/reassembly/reassembly.go:160-169 | a record that is not well-formed frees the assembling slot of its key and touches no other |
| PoolLaws.NoRoomExactly | internal/core/reassembly/reassembly.go:362-381 | a new packet is refused for its peer exactly if the peer's slots, as many as its quota, are all completed, and for want of a slot exactly if all slots are |
| PoolLaws.CompletedAnswers | internal/core/reassembly/reassembly.go:197-245 | a completed packet answers a repetition of one of its fragments as a duplicate, anything else as a conflict, and does not change |
| PoolLaws.AssemblingAnswers | internal/core/reassembly/reassembly.go:197-245 | an assembling one answers with the error that the stored byte ranges give, and loses its slot on every error |
| PoolLaws.RecordMeetsSlot | internal/core/reassembly/reassembly.go:197-245 | what a record does to the slot of its key, by byte ranges: refused for another count, a duplicate exactly if its bytes are there, a conflict otherwise, refused if it shares a byte with another fragment, stored otherwise |
| PoolLaws.OthersStay | internal/core/reassembly/reassembly.go:160-252 | a record that is stored moves no fragment stored before: place, length and bytes stay |
| RoundTrip.JudgeSplit | internal/core/reassembly/reassembly.go:197-245 | a slot holding some records of a packet takes any further record of it without conflict |
| RoundTrip.FirstRecord | internal/core/reassembly/reassembly.go:160-252 | the first record of a packet to arrive opens a slot that holds it and dates it with the time of arrival |
| RoundTrip.NextRecord | internal/core/reassembly/reassembly.go:160-252 | each further record that comes less than a lifetime after the first, in any order, is stored, a repetition is a duplicate, and the last one completes the packet; the slot keeps the first record's time |
| RoundTrip.RecordsCompleteOnce | internal/core/reassembly/reassembly.go:160-252 | over any run that leaves the slot alone for less than its lifetime, the records of a packet in any order and with repetitions complete it exactly once, with the original bytes |
| RoundTrip.PacketCompletesOnce | internal/core/reassembly/reassembly.go:160-252 | from a pool without the packet, over any run that finds a slot for its first record and then leaves that slot alone, the records complete the packet exactly once if all of them arrive and not at all otherwise |
| QuietPool.AcceptHosts | internal/core/reassembly/reassembly.go:160-252 | a record of one of finitely many keys, each within its quota and the pool, evicts nobody and keeps the pool to those keys |
| QuietPool.QuietIsUndisturbing | internal/core/reassembly/reassembly.go:160-314 | so in a run of records of such keys within one lifetime no slot is disturbed |
| QuietPool.QuietIsSpared | internal/core/reassembly/reassembly.go:160-314 | and no packet of them loses its slot |
| EndToEnd.EmitBatch | internal/core/packetizer/packetizer.go:86-154 | a packetizer that starts empty leaves carriers that hold exactly the records of the admitted packets |
| EndToEnd.BatchArrives | internal/core/reassembly/reassembly.go:160-252 | such carriers, in any order and with repetitions, parsed and reassembled on any run that spares their slots, complete each admitted packet exactly once, byte for byte |
| EndToEnd.PacketArrives | internal/core/reassembly/reassembly.go:160-252 | into a pool with room for the batch, within one lifetime, the carriers of a batch in any order and with repetitions complete each admitted packet exactly once, byte for byte; of the run only its times are assumed, and that every carrier arrives |
| EndToEnd.EveryPacketArrives | internal/core/reassembly/reassembly.go:160-252 | in particular into an empty pool |
| Provenance.RunTraced | internal/core/reassembly/reassembly.go:160-314 | over every run each stored fragment is traced to the record that brought it |
| Provenance.CompletedBytesAreItsOwn | internal/core/reassembly/reassembly.go:551-603 | every byte of a completed packet came from a record of its own key; nothing of an earlier occupant of the buffer shows |
| Reorder.AcceptQueueKeeps | internal/core/reorder/reorder.go:111-152 | an arrival keeps pending positions distinct and less than 2^31 ahead, delivers in order and at most capacity plus one |
| Reorder.AcceptQueueConserves | internal/core/reorder/reorder.go:111-152 | for every packet: held before plus arrived is delivered plus held after plus dropped |
| Reorder.FlushIsIncreasing | internal/core/reorder/reorder.go:274-287 | a flush delivers everything held, each at the position of its own sequence, strictly increasing |
| Reorder.DrainIsIncreasing | internal/core/reorder/reorder.go:246-272 | draining delivers exactly the contiguous run and leaves a gap |
| Reorder.LaneIsOrderedAndConserved | internal/core/reorder/reorder.go:111-215 | over every run and across wraps a lane delivers its sequence numbers in strictly increasing unbounded positions, and packets are conserved |
| LaneLaws.ArrivalByPosition | internal/core/reorder/reorder.go:111-152 | what a lane does with a packet, by its position alone: the next one leaves with the unbroken run behind it, an earlier or held one is dropped, one ahead waits, and a full lane sends all in order; the gap is dated by the first packet that waits |
| LaneLaws.TickByTime | internal/core/reorder/reorder.go:156-164 | the timer sends everything a lane holds exactly if its gap is the maximum delay old, else nothing |
| Reorderers.Reorderer.constructor | internal/core/reorder/reorder.go:79-83 | a fresh lane expects the first sequence and holds nothing |
| Reorderers.NewReorderer | internal/core/reorder/reorder.go:69-84 | refuses exactly the unusable configurations; a disabled lane is always usable |
| Reorderers.Reorderer.DrainContiguous | internal/core/reorder/reorder.go:246-272 | the array loop delivers the contiguous run of the specification |
| Reorderers.Reorderer.ClosestAhead | internal/core/reorder/reorder.go:317-331 | the modular distance finds the entry of least unbounded position |
| Reorderers.Reorderer.Accept | internal/core/reorder/reorder.go:111-152 | refines the queue step; wrong lane and short output are refused with nothing changed; disabled lanes pass packets through |
| Reorderers.Reorderer.Tick | internal/core/reorder/reorder.go:156-164 | flushes exactly when the gap is overdue |
| Reorderers.Reorderer.Flush | internal/core/reorder/reorder.go:186-194 | delivers everything held, in order |
| Reorderers.Reorderer.FlushIncluding | internal/core/reorder/reorder.go:200-215 | delivers everything held and the new packet in order, even one whose sequence is already held |
| Reorderers.Reorderer.WouldQueue | internal/core/reorder/reorder.go:176-181 | true exactly when an arrival with that sequence would be held |
| ReceiverSpec.QueuedIffWould | internal/core/reorder/reorder.go:176-181 | the prediction agrees with what Accept then does |
| ReceiverSpec.EarliestIsMinimum | internal/core/datapath/receiver.go:327-350 | the cached deadline's specification is the minimum over lanes that wait, none when none does |
| ReceiverSpec.AfterArrival | internal/core/datapath/receiver.go:219-247 | which arrivals leave the deadline as it is, and which make it the earlier of two |
| ReceiverSpec.NeverOutOfSlots | internal/core/reassembly/reassembly.go:362-381 | while completed packets leave one slot and the one peer may use all slots, no record fails for quota or slots |
| ReceiverSpec.AcceptBalances | internal/core/datapath/receiver.go:180-195 | accepting a record keeps completed slots equal to held and outgoing packets |
| ReceiverSpec.ReleaseBalances | internal/core/datapath/receiver.go:375-401 | every outgoing packet can be released, which takes it off the accounts |
| ReceiverSpec.ArriveBalances | internal/core/datapath/receiver.go:219-247 | a lane step moves packets between held, outgoing and dropped without loss |
| Delivery.OnlyAdmissibleHanded | internal/core/datapath/receiver.go:375-401 | the sink only ever sees whole inner packets whose source belongs to the peer, in order |
| Accounts.HandsUpToRefusal | internal/core/datapath/receiver.go:375-401 | a sink that accepts gets exactly the data of the whole packets with an owned source, in order and once; one that refuses gets those before the refused call and none after |
| Accounts.DropsAreCounted | internal/core/datapath/receiver.go:375-401 | native fragments, malformed packets and foreign sources are counted each as what they are, also after the sink refused |
| Accounts.EveryRunSettles | internal/core/datapath/receiver.go:180-322 | over every run of arrivals and timers each packet that left a lane is one of the three drops, counted as such, or wanted; the sink was called at most once for each wanted one and got one for each call it accepted, and all of them, in order, if it accepts every call |
| Accounts.EveryArrivalSettles | internal/core/datapath/receiver.go:180-249 | the same with reordering switched off |
| Accounts.EveryRunConserves | internal/core/datapath/receiver.go:180-322 | over every run the completed packets are those that left a lane, those that wait in one and those given up as late, repeated or behind a failing sink, each as often as it came |
| Budget.EveryRunWithinBudget | internal/core/datapath/receiver.go:196-322 | over every run the lanes together hold no more than the budget |
| Budget.GivesWayExactly | internal/core/datapath/receiver.go:196-322 | below the budget, and for a packet that does not have to wait, no other lane is touched; at the budget the lane with the oldest gap sends all it holds |
| Delivery.OldestIsOldest | internal/core/datapath/receiver.go:361-373 | the lane chosen to give way has waited longest, and there is one whenever a packet waits |
| Delivery.NoneOverdueAfterTick | internal/core/datapath/receiver.go:260-285 | after a round that no sink failure cut short every gap is younger than the maximum delay |
| Delivery.FailureEndsRound | internal/core/datapath/receiver.go:260-285 | a failing sink leaves the remaining lanes as they are |
| Delivery.EveryRunIsInOrder | internal/core/datapath/receiver.go:180-322 | however arrivals, budget flushes, timers and sink failures interleave, every lane's packets leave in the order of their sequence numbers and reach the sink in that order |
| Delivery.HandedInOrder | internal/core/datapath/receiver.go:375-401 | each packet the sink got is carried by a packet that left a lane, and of two out of one lane the first has the earlier position |
| Delivery.TurnsGrow | internal/core/datapath/receiver.go:180-322 | over every run what the sink got and what left the lanes is only added to |
| Receivers.Receiver.constructor | internal/core/datapath/receiver.go:108-160 | a fresh receiver is valid: nothing held, nothing completed, no deadline |
| Receivers.NewReceiver | internal/core/datapath/receiver.go:108-160 | refuses exactly the unusable configurations; a missing budget becomes all slots but one |
| Receivers.Receiver.Deliver | internal/core/datapath/receiver.go:375-401 | hands out or drops every packet as specified, settles the accounts of `Accounts`, and releases every slot, also after the sink fails |
| Receivers.Receiver.RefreshDeadline | internal/core/datapath/receiver.go:327-350 | the scan over the lanes computes the earliest deadline |
| Receivers.Receiver.OldestReorderLane | internal/core/datapath/receiver.go:361-373 | the scan finds the first lane with the earliest gap |
| Receivers.Receiver.FlushOldest | internal/core/datapath/receiver.go:310-322 | another lane gives up its gap: fewer packets held, deadline exact, accounts balanced |
| Receivers.Receiver.AcceptCompleted | internal/core/datapath/receiver.go:196-249 | a completed packet goes to its lane under the budget; afterwards the receiver is valid: completed slots are exactly the held packets, the counter is their number and within the budget, the cached deadline is exact; lanes and deliveries are those of the specification, also when the sink fails |
| Receivers.Receiver.RoomForOne | internal/core/datapath/receiver.go:116-123 | with all slots open to the one peer no record is refused for want of a slot |
| Receivers.Receiver.AcceptRecord | internal/core/datapath/receiver.go:180-249 | a record of another session is noted and refused; others give the reassembler's error, nothing, or a turn of the lanes |
| Receivers.Receiver.AcceptPayload | internal/core/datapath/receiver.go:176-249 | records are taken in order up to the first error and malformed payloads report the parser's error; lanes, deliveries, drops and log are those of the run over the packets that the records complete, each in the pool it comes to; every packet that left a lane is accounted for once; the receiver stays valid and every lane's packets in order |
| Receivers.Receiver.ExpireReassembly | internal/core/datapath/receiver.go:254-256 | expires assembling slots and disturbs no held packet |
| Receivers.Receiver.TickReorder | internal/core/datapath/receiver.go:260-285 | is the timer event of the run, with validity, accounts, exact deadline and order kept also when a sink failure ends it |
| Receivers.Receiver.NextReorderDeadline | internal/core/datapath/receiver.go:291-296 | none exactly when nothing is held, else the minimum over waiting lanes |
| Senders.ReuseIsALifetimeApart | internal/core/datapath/sender.go:155-180 | two successful Adds of a session that send the same number on a lane are apart by the wait in force at a wrap between them |
| Senders.Sender.Open | internal/core/datapath/sender.go:100-136 | a new session starts every lane at zero, unpaused, with the maximum wait if none is given |
| Senders.Sender.Replace | internal/wgadapter/shimtun/device.go:824-836 | a replacement in the same session continues numbers and pauses |
| Senders.Sender.Add | internal/core/datapath/sender.go:140-180 | a paused lane refuses; a success uses the next number, keeps all lanes' histories valid, and pauses the lane at a wrap |
| Senders.InstallDataPlane | internal/wgadapter/shimtun/device.go:822-836 | the history of a session survives replacement; another session starts afresh |
| PmtuSpec.Median | internal/core/pmtu/pmtu.go:481-492 | one of the three, with two of the three on either side |
| PmtuTheorems.StepKeepsInv | internal/core/pmtu/pmtu.go:59-479 | every event in every order, adjustments included, keeps confirmed, low and candidate between BASE and the ceiling and the results within the three rounds, and says what confirmed becomes |
| PmtuTheorems.RunAll | internal/core/pmtu/pmtu.go:59-479 | so does every run |
| PmtuTheorems.NewIsInv | internal/core/pmtu/pmtu.go:101-112 | a new search satisfies the invariant, so every run from it does |
| PmtuTheorems.RunKeepsUnadjusted | internal/core/pmtu/pmtu.go:368-443 | over every run that adjusts no probe, probes stay strictly inside the search interval and a confirmation probe has the size it confirms |
| PmtuTheorems.ConfirmedMoves | internal/core/pmtu/pmtu.go:206-283 | confirmed rises only on an acknowledged confirmation, to a size acknowledged in a round before; it falls only to BASE, on a black hole report or the third lost confirmation |
| PmtuTheorems.ConfirmingProbeCarries | internal/core/pmtu/pmtu.go:59-65 | after any run of a new search, the acknowledged probe that raises confirmed to k had size k if and only if the last adjustment that took effect since that probe was sent, if any, was to k |
| PmtuTheorems.UnadjustedProbeCarries | internal/core/pmtu/pmtu.go:59-65 | so it always had that size when no probe of the run was adjusted |
| PmtuTheorems.AdjustedConfirmationConfirmsMore | internal/core/pmtu/pmtu.go:59-65 | a run in which an adjusted confirmation probe confirms more than it carried |
| PmtuTheorems.SearchGetsNearer | internal/core/pmtu/pmtu.go:387-479 | every probe sent, answered or lost lowers (rounds left, interval left, tries left) lexicographically |
| PmtuTheorems.RoundEndsAtBest | internal/core/pmtu/pmtu.go:413-432 | a round that runs out of candidates has found the largest exact size |
| PmtuTheorems.Drive | internal/core/pmtu/pmtu.go:192-479 | against a path that loses at most two probes in a row of a size it carries, the exchange of probes ends at rest with the best size confirmed, or, if the probe that was to confirm it strayed, with the size from before |
| PmtuTheorems.SearchConverges | internal/core/pmtu/pmtu.go:124-161 | from any confirmed size the path carries, with any hint, any way losses show and up to two stray losses in a row of each size, the search ends with the largest exact size up to the path and the ceiling confirmed, unless its confirmation probe strayed: then the size from before stays |
| PmtuTheorems.LostConfirmationKeepsSize | internal/core/pmtu/pmtu.go:345-366 | an input on which it strays: the search is over and the smaller size stays confirmed |
| PmtuTheorems.VagueLossTriesAgain | internal/core/pmtu/pmtu.go:398-411 | a timeout or an unattributed failure at the first or second try sends the same size again and changes nothing else |
| PmtuTheorems.LossGivesUp | internal/core/pmtu/pmtu.go:398-411 | a reported failure and the third loss give the size up: the search goes on below it or its round ends |
| PmtuTheorems.EarlyOrForeignIsIgnored | internal/core/pmtu/pmtu.go:206-275 | a tick before the deadline, an error about another attempt and a foreign acknowledgement change nothing |
| PmtuTheorems.RestIsTimed | internal/core/pmtu/pmtu.go:327-479 | a search that comes to rest is confirmed and refreshed after exactly the configured times |
| PmtuLaws.SendIsTimed | internal/core/pmtu/pmtu.go:192-314 | a probe waits four smoothed round trips, not less than 100 ms and not more than the largest duration, or the configured time while there is no sample |
| PmtuLaws.SmoothingIsAnEighth | internal/core/pmtu/pmtu.go:286-296 | a sample moves the smoothed round trip an eighth of the way, rounded toward it; the first is taken as it is, one that is not positive is ignored |
| PmtuLaws.RefreshExactly | internal/core/pmtu/pmtu.go:165-172 | a refresh starts a search exactly if none runs and its time has come; it keeps the size in use and forgets a hint |
| PmtuLaws.ConfirmExactly | internal/core/pmtu/pmtu.go:175-185 | a confirmation of the size in use is armed exactly if nothing runs and its time has come |
| PmtuLaws.ConfirmationCounts | internal/core/pmtu/pmtu.go:327-366 | an answered confirmation forgives earlier losses, the first and second loss are counted, the third is a black hole |
| PmtuLaws.SearchStartsAtHint | internal/core/pmtu/pmtu.go:132-385 | a search starts at the hint if the transport can represent it above BASE |
| PmtuLaws.SearchStartsBelow | internal/core/pmtu/pmtu.go:124-385 | else where the doubling starts |
| PmtuLaws.CandidateHalves | internal/core/pmtu/pmtu.go:413-432 | between a size that passed and one that failed the next candidate halves what is left |
| PmtuLaws.CandidateDoubles | internal/core/pmtu/pmtu.go:413-432 | before any failed it doubles, up to the ceiling |
| PmtuTheorems.IdentityRoundsDown | internal/core/pmtu/pmtu.go:445-445 | without a canonicalizer the result is the smaller of path and ceiling |
| PmtuTheorems.CanonicalRoundsDown | internal/wgadapter/pmtu.go:5-14 | the canonical payload is the largest one up to the request that fills its padding bucket; the 32-bit wrap never shows |
| PmtuTheorems.WireGuardRoundsDown | internal/wgadapter/pmtu.go:5-14 | the 16-byte buckets satisfy what convergence needs, and the best size is the canonical payload of path and ceiling, or BASE |
| PmtuTheorems.CanonicalFillsItsDatagram | internal/wgadapter/pmtu.go:18-25 | a full bucket is the largest payload of its datagram size, exactly as far as the 32-bit sum does not wrap |
| PmtuTheorems.DatagramSizeWraps | internal/wgadapter/pmtu.go:18-25 | a payload at which it does wrap: the greatest one needs a smaller datagram than 616 bytes do |
| PmtuTheorems.CarriersFillTheirDatagrams | internal/wgadapter/pmtu.go:18-25 | carrier payloads, at most 65535 bytes, never reach the wrap |
| Pmtu.NewState | internal/core/pmtu/pmtu.go:101-112 | refuses exactly the unusable configurations; a new state rests at BASE |
| Pmtu.TimeoutIsSane | internal/core/pmtu/pmtu.go:286-314 | timeouts stay between 100 ms and the largest duration; smoothing stays positive and between old value and sample |
| Pmtu.State.Start | internal/core/pmtu/pmtu.go:124-127 | is the Begin event and keeps the invariant |
| Pmtu.State.StartWithHint | internal/core/pmtu/pmtu.go:132-135 | is the BeginWithHint event and keeps the invariant |
| Pmtu.State.RefreshDue | internal/core/pmtu/pmtu.go:165-172 | restarts exactly when resting and due |
| Pmtu.State.ConfirmationDue | internal/core/pmtu/pmtu.go:175-185 | arms a confirmation exactly when resting and due |
| Pmtu.State.Next | internal/core/pmtu/pmtu.go:192-202 | hands out the pending probe, within BASE and the ceiling |
| Pmtu.State.AdjustCurrent | internal/core/pmtu/pmtu.go:59-65 | accepts exactly sizes within the bounds for the probe in flight |
| Pmtu.State.Acknowledge | internal/core/pmtu/pmtu.go:206-218 | only the matching acknowledgement counts |
| Pmtu.State.Fail | internal/core/pmtu/pmtu.go:221-234 | a reported failure of the attempt in flight gives its size up at once, outside a confirmation; one of another attempt changes nothing |
| Pmtu.State.FailCurrent | internal/core/pmtu/pmtu.go:239-244 | the same for whatever probe is in flight |
| Pmtu.State.SoftFailCurrent | internal/core/pmtu/pmtu.go:248-260 | a failure that cannot be attributed sends the same size again at the first and second try and gives it up at the third, outside a confirmation |
| Pmtu.State.Tick | internal/core/pmtu/pmtu.go:263-275 | a probe is lost exactly when overdue, and then counts as such a failure |
| Pmtu.State.ReportBlackhole | internal/core/pmtu/pmtu.go:280-283 | returns to BASE at once |
| Pmtu.State.ObserveRTT | internal/core/pmtu/pmtu.go:286-296 | is the Rtt event and keeps the invariant |
| Pmtu.State.TakeBlackholed | internal/core/pmtu/pmtu.go:318-322 | reports a black hole once |
| AllowedIps.RouteTrie.Insert | internal/core/peerroute/allowedips.go:183-226 | adds exactly one route, at most one node per bit, and fails only when node indexes run out, leaving all routes |
| AllowedIps.RouteTrie.Lookup | internal/core/peerroute/allowedips.go:228-274 | the longest prefix of the address that has an owner |
| AllowedIps.LookupIsLongestMatch | internal/core/peerroute/allowedips.go:98-162 | the trie's answer is the owner of the longest covering entry of the list, none exactly when none covers |
| AllowedIps.OwnerIsUnique | internal/core/peerroute/allowedips.go:98-139 | with unambiguous prefixes the longest covering entry is unique |
| AllowedIps.OrderDoesNotMatter | internal/core/peerroute/allowedips.go:98-139 | lists with the same entries give every address the same owner |
| AllowedIps.BitsAreFaithful | internal/core/peerroute/allowedips.go:276-282 | the bits read by depth spell the address as one big-endian number, so they determine it |
| AllowedIps.BitsSpellValue | internal/core/peerroute/allowedips.go:276-282 | bit by bit from the top they are the binary digits of that number |
| AllowedIps.CoversIsQuotient | internal/core/peerroute/allowedips.go:98-139 | a prefix covers an address if and only if the families agree and both numbers have the same quotient by the power of two that masks the host bits |
| AllowedIps.SameMasked | internal/core/peerroute/allowedips.go:98-139 | two entries have the same masked prefix exactly if family, length and leading bits as a number agree |
| AllowedIps.NewSnapshot | internal/core/peerroute/allowedips.go:98-139 | a snapshot of a list whose prefixes are valid and distinct, or the first entry at fault with its reason; indexes run out only beyond 2^25 entries |
| AllowedIps.Snapshot.LookupPeer | internal/core/peerroute/allowedips.go:152-162 | the owner of the longest prefix whose masked number is the address's, for both families; unusable addresses find nothing |
| AllowedIps.Snapshot.ValidateSource | internal/core/peerroute/allowedips.go:166-169 | accepts exactly when the global longest-prefix owner is the peer |
| ExpirySets.RootIsLeast | internal/core/control/state/expiry.go:57-72 | the root of the heap has the least deadline |
| ExpirySets.SiftUpStep | internal/core/control/state/expiry.go:74-83 | one swap upwards moves the only disorder to the parent |
| ExpirySets.SiftDownStep | internal/core/control/state/expiry.go:85-102 | one swap downwards moves the only disorder to the smaller child |
| ExpirySets.ExpirySet.Retain | internal/core/control/state/expiry.go:39-55 | only extends a deadline, or inserts below the limit; all other keys keep theirs |
| ExpirySets.ExpirySet.Prune | internal/core/control/state/expiry.go:57-72 | removes exactly the keys whose deadline is not after now |
| ExpirySets.ExpirySet.SiftUp | internal/core/control/state/expiry.go:74-83 | restores the heap without changing the map |
| ExpirySets.ExpirySet.SiftDown | internal/core/control/state/expiry.go:85-102 | restores the heap without changing the map |
| ExpirySets.ExpirySet.Swap | internal/core/control/state/expiry.go:104-108 | keeps positions and keys naming each other |
| Ring.SlotIsRemainder | internal/wgadapter/shimtun/control_scheduler.go:306-338 | the ring position is the remainder |
| Ring.FilterIsSieved | internal/wgadapter/shimtun/device.go:717-742 | a filtered queue is the queue without the refused entries: each remaining one at a place of its own, in order, and every accepted one among them |
| ControlSpec.EnqueueKeeps | internal/wgadapter/shimtun/control_scheduler.go:181-247 | admission never evicts or reorders a critical message, drops only the one offered, keeps at most 8 probes and the capacity |
| ControlShares.ShareIsLargest | internal/wgadapter/shimtun/control_scheduler.go:291-301 | a peer's share is the largest number of places that every peer can have at once, and one where there are more peers than places |
| ControlShares.CriticalAtShare | internal/wgadapter/shimtun/control_scheduler.go:204-247 | a peer that has its share gets a new critical message in exactly if it has a probe to give up, the oldest of its own |
| ControlShares.CriticalBelowShare | internal/wgadapter/shimtun/control_scheduler.go:204-247 | a peer below its share gets one in exactly if the queue has a place or a probe; the oldest probe of all gives way |
| ControlShares.CriticalReplaced | internal/wgadapter/shimtun/control_scheduler.go:204-247 | a critical message that waits already is replaced where it stands |
| ControlShares.ProbeExactly | internal/wgadapter/shimtun/control_scheduler.go:204-247 | a probe is admitted exactly if fewer than eight wait and the queue has a place, and takes no other descriptor's |
| ControlShares.BelowShareGetsIn | internal/wgadapter/shimtun/control_scheduler.go:181-301 | while no peer holds more critical messages than its share, one that holds fewer gets its message in |
| ControlShares.ShareIsKept | internal/wgadapter/shimtun/control_scheduler.go:181-301 | admission keeps a peer within its share exactly if the peer does not hold its share already with a probe beside it |
| ControlShares.ProbeMakesRoomBeyondShare | internal/wgadapter/shimtun/control_scheduler.go:181-301 | an input on which it does not: a critical message, a probe and another critical message of one peer leave the other no place |
| ControlShares.NobodyIsShutOut | internal/wgadapter/shimtun/control_scheduler.go:117-301 | after every run of critical messages over a fixed peer set, whatever the others sent, a peer that holds less than its share gets its message in |
| ControlRuns.GlobalRateIsBounded | internal/wgadapter/shimtun/control_scheduler.go:68-82 | over every run of the scheduler, whatever is queued, removed or reconfigured meanwhile, the choices made between two times, less refunds, are at most the interface's burst plus its rate times the time between |
| ControlRuns.PeerRateIsBounded | internal/wgadapter/shimtun/control_scheduler.go:68-82 | the same for each peer and its own bucket, over every run that keeps the peer configured |
| ControlRuns.EveryRunFills | internal/wgadapter/shimtun/control_scheduler.go:68-82 | every run leaves every bucket between empty and its burst and refilled no later than the clock, so the bounds hold from any reachable state on |
| ControlRuns.NewIsFilled | internal/wgadapter/shimtun/control_scheduler.go:99-115 | a new scheduler is such a state |
| ControlRuns.EveryoneGetsATurn | internal/wgadapter/shimtun/control_scheduler.go:344-381 | over every run with a fixed peer set, a peer that is eligible whenever a choice succeeds is chosen within its distance in turn |
| ControlRuns.WithinOneRound | internal/wgadapter/shimtun/control_scheduler.go:344-381 | so within as many successful choices as there are peers |
| ControlRate.SearchFindsFirst | internal/wgadapter/shimtun/control_scheduler.go:344-381 | the scan finds the first eligible peer in turn, and nothing exactly when none is eligible |
| ControlRate.TokenExactly | internal/wgadapter/shimtun/control_scheduler.go:68-82 | after a refill a bucket has a token exactly if it was never refilled or its rest and what came in since make one, and is full exactly if they make a burst |
| ControlRate.RefundUndoesTake | internal/wgadapter/shimtun/control_scheduler.go:386-391 | a refund gives back exactly what a send took |
| ControlRuns.RemovalIsExact | internal/wgadapter/shimtun/control_scheduler.go:165-179 | removing a peer takes exactly its messages out and leaves the order |
| ControlRuns.UpdateIsExact | internal/wgadapter/shimtun/control_scheduler.go:117-160 | new peers take exactly the messages of the others out, leave the order, the tokens of who stays and, in range, the turn; who is new starts with a burst |
| ControlSchedulers.ControlScheduler.constructor | internal/wgadapter/shimtun/control_scheduler.go:99-115 | an empty ring of the clamped capacity |
| ControlSchedulers.ControlScheduler.Remove | internal/wgadapter/shimtun/control_scheduler.go:306-321 | deletes one entry in place, keeping order and the exploratory count |
| ControlSchedulers.ControlScheduler.Pop | internal/wgadapter/shimtun/control_scheduler.go:323-338 | returns and deletes the chosen entry; is the pop step of the runs |
| ControlSchedulers.ControlScheduler.Enqueue | internal/wgadapter/shimtun/control_scheduler.go:204-247 | the ring refines admission on sequences; the exploratory count stays exact and at most 8 |
| ControlSchedulers.ControlScheduler.RemovePeer | internal/wgadapter/shimtun/control_scheduler.go:165-179 | exactly the order-preserving filter, and its count |
| ControlSchedulers.ControlScheduler.UpdatePeers | internal/wgadapter/shimtun/control_scheduler.go:117-160 | filters the queue, survivors keep their tokens, the turn stays in range; is the update step of the runs |
| ControlSchedulers.ControlScheduler.Choose | internal/wgadapter/shimtun/control_scheduler.go:344-381 | is the choose step of the runs: refills and takes tokens of exactly the buckets the scan visits, chooses the oldest message of the first eligible peer in turn, and takes none when nobody is eligible |
| ControlSchedulers.ControlScheduler.RefundTokens | internal/wgadapter/shimtun/control_scheduler.go:386-391 | gives both tokens back, up to the bursts; is the refund step of the runs |
| DataRings.DataRing.Enqueue | internal/wgadapter/shimtun/device.go:1179-1195 | appends, or refuses a full ring or a long payload and changes nothing |
| DataRings.DataRing.Dequeue | internal/wgadapter/shimtun/device.go:1118-1134 | takes the oldest carrier |
| DataRings.DataRing.Rollback | internal/wgadapter/shimtun/device.go:1641-1648 | restores the prefix from before the batch |
| DataRings.DataRing.Purge | internal/wgadapter/shimtun/device.go:717-742 | in place, exactly the order-preserving filter that removes one peer |
| DataRings.DataRing.Grow | internal/wgadapter/shimtun/device.go:564-585 | a larger ring with the same queue |
| Drain.Device.EmitNext | internal/wgadapter/shimtun/device.go:1075-1134 | one round: CONTROL goes before waiting DATA only below four in a row |
| Drain.Device.DrainPayloads | internal/wgadapter/shimtun/device.go:1073-1141 | over a whole batch CONTROL is emitted while DATA waits only if fewer than four were since the last DATA, and the DATA emitted is the front of the queue |
| PeerDiff.IncrementalMeansFull | internal/wgadapter/peers.go:148-323 | on a device configured by the previous plan the incremental program leaves the same peers as the full program of the new plan, cleared endpoints and preshared keys included |
| PeerDiff.UpdatePartitions | internal/wgadapter/peers.go:168-211 | added and survivors partition the new peers, removed and survivors the old ones |
| PeerDiff.RunFull | internal/wgadapter/peers.go:302-323 | the full program configures exactly the planned peers |
| PeerDiff.RunAddLines | internal/wgadapter/peers.go:237-248 | the lines of a new peer create it as planned and take no route from others |
| PeerDiff.RunChangeLines | internal/wgadapter/peers.go:249-260 | the lines of a changed survivor turn its old configuration into the new one |
| PeerDiff.RunRemoveLines | internal/wgadapter/peers.go:233-236 | the lines of a removed peer delete it |
| PeerUpdates.PreparePeerUpdate | internal/wgadapter/peers.go:148-227 | refuses exactly a changed local key or carrier address; survivors keep their identifiers, all identifiers are distinct, and the lists are the difference between the plans |
| PeerUpdates.NextFree | internal/wgadapter/peers.go:197-201 | the least identifier not in use |
| PeerUpdates.RenderUpdate | internal/wgadapter/peers.go:231-263 | writes the incremental program |
| PeerUpdates.RenderFull | internal/wgadapter/peers.go:302-323 | writes the peers part of the full program |
| MutationSpec.PerformMovesOn | manager/interface_supervisor.go:86-279 | a mutation succeeds only at the generation it expects and moves past it; none moves the generation back |
| MutationSpec.SucceedsExactly | manager/interface_supervisor.go:86-279 | when an operation succeeds: on its own instance and generation, a peer update on a running interface, a restart also after an error |
| MutationSpec.StaleIsAborted | manager/interface_supervisor.go:122-139 | a malformed request is told so, one for another instance or generation is aborted, and neither changes anything |
| MutationSpec.RestartLeavesItsMark | manager/interface_supervisor.go:176-279 | a restart past its checks runs at a new generation, with the new configuration or the old, or is an error |
| MutationSpec.SuccessRuns | manager/interface_supervisor.go:86-279 | a success reports the new generation and leaves the new configuration running |
| MutationSpec.FailureRollsBack | manager/interface_supervisor.go:86-279 | a peer update that fails changes nothing; a restart that fails leaves the old configuration or an error, unless only its report was lost |
| MutationTheorems.StepKeepsInv | manager/mutation_cache.go:62-155 | every step keeps: one operation in progress per request, its entry pending in the cache, the capacity, and distinct expected generations of successes |
| MutationTheorems.EveryRunKeepsInv | manager/mutation_cache.go:62-155 | so does every interleaving |
| MutationTheorems.StartIsInv | manager/mutation_cache.go:62-155 | and the empty manager satisfies it |
| MutationTheorems.PendingStays | manager/mutation_cache.go:124-155 | no expiry, eviction or other request touches a pending entry, and repeating its request starts nothing |
| MutationTheorems.ReplyStays | manager/mutation_cache.go:62-89 | a finished entry keeps its reply while cached, and repeating its request starts nothing |
| MutationTheorems.EntryChanges | manager/mutation_cache.go:62-155 | an entry changes exactly if its own operation finishes, or a request finds it finished more than a lifetime ago or takes its place |
| MutationTheorems.FinishPublishes | manager/mutation_cache.go:96-113 | a finished operation leaves its reply under the hash of its request, dated with the time it finished |
| MutationTheorems.EvictsOldestFinished | manager/mutation_cache.go:124-144 | a place is taken only in a full cache, from a finished entry that no other finished one is older than |
| MutationTheorems.RunsOnce | manager/mutation_cache.go:62-155 | over every interleaving a request that is under way, or finished less than a lifetime ago and not evicted, is not started again, and its reply stays the same |
| MutationTheorems.OutlivedStartsAnew | manager/mutation_cache.go:62-155 | a request that comes more than a lifetime after its operation finished is started anew |
| MutationTheorems.GenerationNeverFalls | manager/interface_supervisor.go:86-279 | over every run an instance's generation never falls and a deleted instance does not return |
| Mutations.MutationCache.PruneLocked | manager/mutation_cache.go:146-155 | drops exactly the finished entries that are older than a positive lifetime |
| Mutations.MutationCache.ReserveLocked | manager/mutation_cache.go:124-144 | makes room by an oldest finished entry, never a pending one, and fails exactly when that is impossible |
| Mutations.MutationCache.Begin | manager/mutation_cache.go:62-93 | joins, refuses a different mutation, refuses when full, or enters a pending entry |
| Mutations.MutationCache.Complete | manager/mutation_cache.go:96-113 | publishes the reply of the pending entry |
| Mutations.Supervisor.CheckMutation | manager/interface_supervisor.go:122-139 | refuses a missing or malformed context, another instance and another generation |
| Mutations.Supervisor.ApplyPeerRequest | manager/interface_supervisor.go:86-120 | is the specified step for every answer of the runtime |
| Mutations.Supervisor.RestartRequest | manager/interface_supervisor.go:141-174 | is the specified step for every answer of the runtime |
| Mutations.Supervisor.RestartLocked | manager/interface_supervisor.go:176-247 | new generation on success and on a completed rollback, otherwise the lifecycle the failure leaves |
| Mutations.Supervisor.Rollback | manager/interface_supervisor.go:249-279 | a restored runtime is a new generation; a failed one is an error without runtime |
| Mutations.Supervisor.Watch | manager/interface_supervisor.go:281-306 | a runtime that stops on its own leaves an error, unless an operation replaced it |

## Left out

- Packetizer use before Init (ErrUninitialized): an object of the model is always initialized.
- Reorderer.Reset: it only empties a lane before a new session and no caller in the modelled code uses it.
- Receivers.Receiver.AcceptPayload: the pool between two records is stated as valid and balanced with the lanes, not as a function of the records before.
- AcceptCarrier and the synthetic IPv6 envelope: a header check in front of AcceptPayload.
- innerip.ParseExact: an arbitrary function of the packet bytes in the receiver.
- The source check inside the receiver: an arbitrary predicate there; AllowedIps proves the table that answers it.
- hashKey: the SplitMix64 arithmetic; every hash function is allowed instead.
- 64-bit wrap of slot ages, slot generations, probe attempts and interface generations: unbounded naturals.
- Saturation of time.Add and of durations near the 64-bit limit: times are unbounded integers.
- Float rounding of tokens: buckets are real numbers.
- Senders.Sender.Add: parsing, routing and packing enter as answers; the clock is read at most once before and once after.
- Senders.InstallDataPlane: the refusals of an unusable configuration and the replacement of receiver and rings; the lane numbers are what one session must keep.
- A failed Add that had already emitted fragments: reuse is stated for successful Adds only, as the source counts them.
- PeerUpdates.PreparePeerUpdate: the rebuilt route snapshot; AllowedIps proves the table that it builds.
- Mutations.Supervisor.RestartRequest: every failure to start or close a runtime is answered with one code.
- PreparePeers: key derivation, endpoint syntax and address collisions; its result, distinct keys and carrier addresses, is what PreparePeerUpdate starts from.
- Private key and listen port lines of the full program: they do not concern peers.
- wireguard-go itself: PeerDiff.Execute is the documented meaning of the configuration lines.
- drainCarriersLocked: the arbitration of drainPayloadsLocked around an envelope.
- activeCarrierQueueSlots and waitForCarrierSpace: arithmetic around the share that is proved.
- CONTROL decoding and padding (protobuf): descriptors arrive decoded, framing is an arbitrary function.
- startInitial, stopAndDelete and the manager's key reservations: lifecycle edges without generation changes; creation and deletion are single steps.
- Waiting on a pending request and cancelling the wait: a joined call starts nothing and changes nothing.
- controlplane, controlbridge, gRPC, sockets, daemon, metrics, packaging: input and output around the core.
