# EFP: a verified model of fragmentation, reassembly and repair

EFP carries superframes (payloads of up to 100 MiB with timestamps and a stream number) over a network that
loses, reorders and duplicates packets. A `Sender` cuts each payload into numbered fragments, keeps what it
sent for a while, and answers requests for retransmission. A `Receiver` collects fragments in a ring of
buckets, rebuilds the payload in place, asks for what is missing, and hands frames to the user. Beside these
two, the repository has a C interface with embedded sections in front of a payload, and a bandwidth manager
that scales streams to the health of the network.

This project models that code in Dafny and proves what it is for: that what was sent is what is delivered,
once, whatever the network does within stated bounds; that every write stays inside its allocation; that the
bookkeeping on both sides agrees with itself over every run; that a NACK repairs a bucket; and that shutdown
cannot hang.

## How it is organised

Code that changes state is a class whose methods are proved to compute functions on the abstract state; the
theorems are then lemmas about those functions, over single steps and over whole runs.

- `Wire`, `Layout`, `Fragmenter`: packed headers as bytes, and where each field lies; the cut of a payload into
  fragments, and the `Job` that determines all frames of one superframe.
- `FrameMemory`, `Placement`: the memory of one bucket, with uninitialised cells, `memcpy` and `memmove`; the
  placement invariant.
- `NackRanges`, `Ordering`: the gap scan of a NACK; the walk of an ordered map and the sort of a sweep.
- `Retention`, `RetentionRuns`, `RetentionLimits`: the sender's store, its four structures, its limits.
- `SenderSpec`, `SenderClass`, `Retransmits`, `OnTheWire`, `SenderRuns`, `Keeping`, `Planned`: `send` and its
  helpers as functions and as a class; which requests are answered, with what; what is on the wire; all of it
  over runs; what a call with room keeps, and what it answers.
- `ReceiverSpec`, `BucketClass`, `ReceiverClass`, `ReceiverRuns`, `SweepNacks`, `FrameOrder`: the same for the
  receiver, with the NACKs of a sweep and the order of delivery.
- `BucketTimes`, `Bounded`: when a bucket is NACKed and given up, in terms of clock times and messages alone; what no
  packets can bring about.
- `Bundles`, `Sequence`, `Unrolling`, `Reopening`: a bundle as its fragments, unwrapped numbers, at-most-once
  delivery, and exactly when a frame comes out twice.
- `EndToEnd`, `BundleTraffic`, `Loads`, `Transmission`: from one call of `send` to the delivered frame.
- `Streaming`, `Incomplete`: from many calls of `send` to the frames in order; what comes out of a superframe that
  stays incomplete.
- `NackService`, `Repair`, `SweptRounds`, `Holding`, `Retries`: from a loss to the repaired frame, within the
  receiver's limit of NACKs and before the bucket's deadlines.
- `Boundaries`, `LostFronts`: where the promises end, with runs that get there.
- `Delivery`, `Handover`: the worker thread, the delivery thread and `stop` as interleaved atomic steps; these threads
  together with the receiver whose sweeps they carry out.
- `Embedded`: the section writer, the section reader and the walk of the C receive callback.
- `Bandwidth`: multipliers, drops and overrides per stream.

Time is an argument `now`, one value per public call. The two callbacks are logs of their invocations. The
ring has any size that divides 65536, so the mask of the ring index is a remainder. A retention key is the pair
that the program packs into 32 bits (efp.h:383-385), where no two pairs collide (`Retention.PackedInjective`).
`dafny verify dfyconfig.toml` checks everything.

## Model

| member | source | states |
|---|---|---|
| Wire.DecodeEncode | efp_internal.h:55-105 | every Type1, Type2 and Type3 packet is read back from its bytes, by the reading its own type nibble selects |
| Wire.EncodeDecode | efp_internal.h:55-105 | every readable frame is the encoding of what was read: no header bit is ignored |
| Layout.LayoutDecides | efp_internal.h:55-105 | a packet and its bytes: the low nibble of the first byte is the type, the high nibble the flags, every other field lies at its offset in the packed struct, least significant byte first, and the payload behind; there is no other frame of that packet |
| Layout.NackLaidOut | efp_internal.h:119-141 | in the same way a NACK message and the fields of its entry k |
| Layout.BundleLaidOut | efp_internal.h:107-117 | and a bundle: type 4 with the flags, the number of members, and member k at its offset |
| Wire.MakeFrameTypeByte | efp_internal.h:168-181 | type nibble and flag nibble are both recovered from the combined byte |
| Wire.NackEntryRoundTrip | efp_internal.h:119-141 | entry k of an encoded NACK message is read back as written, at its offset |
| Fragmenter.CutPartition | efp.h:522-567 | for every size, slot size and Type2 limit the parts add up to the payload; Type2 is never empty and fits its frame; Type3 exists only behind a full Type2 |
| Fragmenter.CutUnique | efp.h:522-567 | no other cut has these properties, so the three-way arithmetic, including its always overwritten fallback, can produce nothing else |
| Fragmenter.Job.JoinedIsData | efp.h:599-661 | the payloads of fragments 0..k-1 in number order are exactly the data up to the start of fragment k |
| Fragmenter.FragmentNumbers | efp.h:601-661 | each number 0..Of belongs to one fragment; only the last is Type2, only the one before it can be Type3 |
| Fragmenter.JobFits | efp.h:297-326 | every accepted payload gives frames within the MTU with non-empty payloads; Type3 carries 1 to 19 bytes and occurs only without bundling |
| Fragmenter.DtsRoundTrip | efp.h:309-315 | the receiver recovers the DTS exactly when it is not after the PTS and the difference fits; otherwise it reports none |
| Fragmenter.SmallMtuWithinLimit | efp.h:569-571 | up to MTU 12808 the fragment cap alone keeps every accepted job within the receiver's size limit |
| FrameMemory.PlaceFits | efp.h:1240-1283 | every copy and the memmove of any packet that passes the checks stays inside what the opener allocated |
| FrameMemory.PlaceOk | efp.h:1277-1283 | accepting a packet keeps: counter equals number of received bits, bits at most Of, and memory for whatever can still be accepted |
| FrameMemory.CompleteMeansAll | efp.h:1648 | the fragment counter reaches Of+1 exactly when every index 0..Of was received |
| Placement.OpenPlaced | efp.h:1205-1247 | whichever fragment opens the bucket, the placement invariant holds afterwards |
| Placement.PlaceKeeps | efp.h:1270-1585 | accepting any further fragment of the job keeps every received fragment's bytes at its place, Type2 in slot Of before Type3 and right behind it afterwards |
| Placement.RelocateKeeps | efp.h:1567-1577 | the late relocation moves the Type2 bytes, overlapping or not, and clobbers no received byte |
| Placement.CompleteIsData | efp.h:1567-1585 | a complete bucket holds exactly the payload: same size, same bytes, nothing uninitialised |
| Placement.OpenersWithinLimit | efp.h:1205-1208 | all fragments of a job may open a bucket if and only if slot size times Of+1 is within the limit |
| NackRanges.MissingIs | efp.h:1046-1050 | the missing list is exactly the unreceived numbers of the range, ascending |
| NackRanges.GapsExact | efp.h:1046-1088 | expanding the coalesced ranges gives the missing numbers, each once and in order; each range has at most 256 and stays within Of |
| NackRanges.LimitedPrefix | efp.h:1094-1097 | with more than 255 ranges the message asks for a proper prefix of the missing numbers, and never for nothing while something is missing |
| NackRanges.GapsAfter | efp.h:1046-1088 | once the first n ranges are filled and nothing else has come, exactly the other ranges are left: filling splits and merges none |
| NackRanges.ScanGaps | efp.h:1042-1088 | the scanning loop computes those ranges |
| Retention.DrainAnswers | efp.h:338-359 | whatever draining yields is a fragment to send |
| RetentionRuns.EvictAgrees | efp.h:392-419 | an eviction pass keeps the four structures in agreement and starts no new generation |
| RetentionRuns.RetainAgrees | efp.h:421-451 | retaining a fragment does so too, also when its key is reused, and records what was sent under the new generation |
| RetentionRuns.EntriesAgree | efp.h:251-272 | so does applying the entries of a NACK |
| RetentionRuns.AnswerIsOwn | efp.h:464-482 | a request is answered only with the bytes and the stream sent under its own generation |
| RetentionRuns.ExactlyOneRecord | efp.h:449-450 | every live entry has exactly one age record |
| RetentionLimits.EvictMakesRoom | efp.h:396-418 | after a pass the required bytes fit the limit; entries that stay are untouched and those that go are counted off |
| RetentionLimits.EvictStops | efp.h:392-419 | a pass ends at the first record that is live, fresh and has no more than the allowed bytes from it on; exactly the entries with records from there on stay |
| RetentionLimits.LimitKept | efp.h:421-451 | from a store within its limit, a retain exceeds the limit exactly if the entry grows and behind its record some live fresh record has between limit minus new size (excluded) and limit minus growth bytes from it on |
| RetentionLimits.LimitExceededExactly | efp.h:421-451 | the same from any store: in addition no record up to the entry's own may end the pass |
| RetentionLimits.RetainLimit | efp.h:421-451 | how much: the excess is at most the growth of the entry if the limit held before, and never more than either size |
| RetentionLimits.LimitExceeded | efp.h:426-440 | a family of runs in which the limit is exceeded |
| RetentionLimits.EvictLeavesFresh | efp.h:393-411 | in a store whose records are in time order nothing older than the cutoff survives a pass; `SenderRuns.RunSteady` keeps that order over every run |
| RetentionLimits.EvictByAge | efp.h:393-411 | with room for the required bytes, an entry is evicted if and only if it was retained more than `retentionMs` milliseconds before, and stays as it is otherwise |
| RetentionLimits.RetainAged | efp.h:436-450 | retaining keeps the records in the order of their times, which the previous row needs |
| SenderSpec.PassesTile | efp.h:680-740 | whatever waits for retransmission, the passes of the bundling loop take fragments 0..n-1 in order without gap or overlap, at least one each |
| SenderSpec.WrapperFits | efp.h:687-738 | every bundle holds frames of one size and is at most one MTU |
| SenderSpec.FragmentsFit | efp.h:594-661 | every stand-alone frame is at most one MTU |
| SenderClass.Sender.constructor | efp.h:191-204 | the MTU is raised to 256, the buffers are allocated, everything is empty |
| SenderClass.Sender.EvictOldRetention | efp.h:392-419 | the loop computes `Evict` and touches nothing else |
| SenderClass.Sender.RetainFragment | efp.h:421-451 | the method computes `Retain` |
| SenderClass.Sender.ReceiveNack | efp.h:228-276 | checks, entries and result are those of `NackEffect`; a range past 65535 stops the message after the ranges before it |
| SenderClass.Sender.GetRetransmitFragment | efp.h:464-482 | takes the oldest request; a stale one yields nothing |
| SenderClass.Sender.ProcessRetransmits | efp.h:338-359 | sends the live requests oldest first, at most the given number, and returns how many |
| SenderClass.Sender.Divide | efp.h:522-567 | the branches of the size arithmetic compute the unique cut |
| SenderClass.Sender.SendType2Only | efp.h:484-511 | a small payload leaves as one retained Type2 frame |
| SenderClass.Sender.SendFragmentedSingle | efp.h:594-664 | the frames written through the send buffer are the job's frames, retained and sent in number order |
| SenderClass.Sender.SendFragmentedBundled | efp.h:666-787 | the bundles written through the bundle buffer are those of `Passes`, then Type3 and Type2 alone |
| SenderClass.Sender.Send | efp.h:279-326 | the whole call, with its rejections, computes `Send`: new number, new store, packets in order |
| Retransmits.GroupsCarried | efp.h:689-711 | each pass sends the answer to the oldest request, in its bundle if it has the size of a new frame and alone otherwise, and no other retransmit |
| Retransmits.DrainCarried | efp.h:338-359 | draining sends the answers to the requests it takes and nothing else |
| Retransmits.GroupsWait | efp.h:689-703 | everything the bundling loop answers was waiting, live and with these bytes, before the call: retaining the new fragments revives no request |
| Retransmits.BundlesType1 | efp.h:689-703 | all members of all bundles of a call are Type1 exactly if each answered request of the size of a new frame is for one; it is enough that this holds of the live requests waiting before |
| Retransmits.OldestSpoils | efp.h:689-703 | if the request waiting longest is live, of that size and not Type1, and two Type1 fragments are to be sent, the first bundle has a member that is not Type1 |
| Planned.PlanFollowed | efp.h:680-740 | with room for the new fragments and nothing of their superframe queued, the loop answers pass by pass what can be read off the store and the queue before the call |
| Planned.PlannedType1 | efp.h:689-703 | so before the call: all members of all bundles will be Type1 exactly if each request the plan reaches, live and of the size of a new frame, is for one |
| OnTheWire.JobOccurs | efp.h:594-787 | each fragment of a call is in one of its packets, alone or where a receiver's division of the bundle finds it |
| OnTheWire.ReplyLeaves | efp.h:689-738 | so is each retransmit of the bundling loop |
| SenderRuns.SendSteady | efp.h:279-326 | one `send` keeps the structures in agreement with each other and with a history all of which was emitted, keeps the time order, and answers requests only with the entries of their own generations |
| SenderRuns.DrainSteady | efp.h:338-359 | so does draining: each answer repeats the history under the generation of its request |
| SenderRuns.RunSteady | efp.h:228-359 | over every run of send, receiveNack and processRetransmits: agreement with the run's own history, all of which is on the wire; every retransmit, drained, bundled or sent between bundles, repeats the entry of its own generation; the bytes stay within limit plus one MTU |
| SenderRuns.StartSteady | efp.h:191-204 | a new sender satisfies what these rows keep |
| SenderRuns.RunFresh | efp.h:279-299 | after any such run, a send that passes the size check leaves nothing older than the retention time |
| SenderRuns.RunByAge | efp.h:291-295 | and while the byte limit is not exceeded, the pass with which a send begins evicts exactly what is older than that |
| Streaming.SendResult | efp.h:279-326 | `send` answers INVALID_PARAMETER for an empty payload, OK for an accepted one and TOO_LARGE_FRAME for any other; only an accepted one takes the next number, modulo 2^16, and only it sends anything |
| Streaming.SendNumbered | efp.h:484-597 | in any run of sends, NACKs and drains, the packets of the k-th accepted send carry each fragment of its superframe once, and each such fragment is read back with the number start + k modulo 2^16, alone or in a bundle |
| BucketClass.Bucket.CopyIn | efp.h:1282-1283 | memcpy into the frame array |
| BucketClass.Bucket.MoveWithin | efp.h:1567-1577 | memmove within the frame array, overlap allowed |
| BucketClass.Bucket.OpenType1 | efp.h:1210-1247 | the fields and the new array are those of an opened bucket |
| BucketClass.Bucket.OpenType2 | efp.h:1332-1380 | the same for Type2, whose allocation is Of slots and its own size |
| BucketClass.Bucket.OpenType3 | efp.h:1481-1529 | the same for Type3 |
| BucketClass.Bucket.PlaceType1 | efp.h:1276-1285 | accepting Type1 in place computes `Accept` |
| BucketClass.Bucket.PlaceType2 | efp.h:1403-1447 | the same for Type2, on either side of Type3 |
| BucketClass.Bucket.PlaceType3 | efp.h:1559-1587 | the same for Type3, with the relocation |
| BucketClass.Bucket.CheckType1 | efp.h:1250-1274 | the result code of every check against an existing bucket, in the program's order |
| BucketClass.Bucket.CheckType2 | efp.h:1382-1424 | the same for Type2 |
| BucketClass.Bucket.CheckType3 | efp.h:1532-1557 | the same for Type3 |
| EndToEnd.ForeignRejected | efp.h:1255-1260 | while a bucket collects for a stream and a source, a packet with its number but of another stream or source that passes its own checks is answered INVALID_PARAMETER, and the whole receiver state is unchanged (the same test at 1385-1388 and 1536-1539) |
| BucketClass.Bucket.BuildNack | efp.h:1038-1112 | the message encodes the first 255 ranges of what is missing, or is empty if nothing is |
| ReceiverClass.Receiver.constructor | efp.h:830-860 | a ring of distinct unused buckets, and nothing pending |
| ReceiverClass.Receiver.RecalculateSuperFrameNo | efp.h:1152-1165 | the 64-bit order of a 16-bit number |
| ReceiverClass.Receiver.OpenSlot | efp.h:1196-1248 | opening a free slot computes `OpenStep`: too old, too large, no memory for size zero, or opened |
| ReceiverClass.Receiver.HandleType1 | efp.h:1172-1285 | the handler computes `HandleBytes` on the whole receiver state |
| ReceiverClass.Receiver.HandleType2 | efp.h:1287-1448 | the same |
| ReceiverClass.Receiver.HandleType3 | efp.h:1450-1588 | the same |
| ReceiverClass.Receiver.HandleType4 | efp.h:1590-1636 | the member loop computes `HandleBundle` |
| ReceiverClass.Receiver.ProcessNacks | efp.h:1115-1150 | every pending bucket in map order, NACKed if its delay is over and its retries are not |
| ReceiverClass.Receiver.DeliverFrame | efp.h:1638-1668 | the frame with its broken mark is handed over, its bucket and its map entry are given up |
| ReceiverClass.Receiver.ProcessTimeouts | efp.h:1670-1705 | the sweep computes `Sweep`; sorting what the map walk collected changes nothing |
| ReceiverClass.Receiver.Receive | efp.h:879-914 | dispatch on the type nibble, then a sweep in RUN_TO_COMPLETION mode |
| ReceiverClass.Receiver.Poll | efp.h:922-927 | a sweep in RUN_TO_COMPLETION mode, nothing otherwise |
| ReceiverRuns.HandleKeepsTable | efp.h:1194-1218 | a fragment keeps the table exact: the map holds the active buckets under their own orders, congruent to frame number and ring index |
| ReceiverRuns.OrderFresh | efp.h:1197-1211 | the order of a free slot is not in the map, so opening overwrites no other entry |
| ReceiverRuns.DispatchKeepsTable | efp.h:879-907 | any packet keeps the table exact |
| ReceiverRuns.SweepDelivers | efp.h:1670-1705 | a sweep delivers exactly the due buckets, each as it stands, in strictly ascending order |
| ReceiverRuns.SweepLeaves | efp.h:1680-1697 | what remains is incomplete, before its deadline and within the head-of-line limit, and unchanged but for its NACK bookkeeping |
| SweepNacks.SweepAsks | efp.h:1115-1150 | a sweep sends exactly the messages of the incomplete buckets whose delay is over and whose retries are not used up, by ascending number, counts each at its bucket, and changes no other bookkeeping |
| BucketTimes.NackTiming | efp.h:1115-1150 | over every run: a bucket opened at `t0` is asked for by an event exactly if the event sweeps, a fragment is missing, fewer messages than the configured retries have named its superframe so far, and the delay is over, counted from `t0` if there was none and from the last one otherwise |
| BucketTimes.NacksSpaced | efp.h:1125-1147 | so with delays of at least `d` no message for it comes before `t0 + d`, and none within `d` of the one before |
| BucketTimes.Deadline | efp.h:1670-1697 | and it is given up by an event exactly if that sweeps, and every fragment has come, or `t0` plus the timeout (its product with 1000 taken modulo 2^32) or a head-of-line limit that is not 0 has been reached |
| ReceiverRuns.RunKeepsInv | efp.h:1638-1705 | over every run: table exact, openings equal complete plus broken plus pending, and no bucket NACKed more than the configured number of times |
| ReceiverRuns.InitialInv | efp.h:830-860 | a new receiver satisfies that invariant |
| ReceiverRuns.DeliveredUnbrokenMeansAll | efp.h:1648 | a frame is marked unbroken if and only if every fragment index was received |
| Bounded.RunBounded | efp.h:1172-1588 | over every run on bytes, whatever they are: an open bucket has between 1 byte and 100 MiB and no empty slots, no delivered frame is larger, its number is the low half of its order, and its DTS is unset or lies before its PTS by less than 2^32 - 1 |
| FrameOrder.SweepOrder | efp.h:1670-1705 | if delivery was in strictly ascending order so far, it is after a sweep exactly if all that the sweep delivers is newer than the frame delivered last |
| FrameOrder.RunOrder | efp.h:1670-1705 | a run delivers in strictly ascending order if and only if that holds of each of its sweeps |
| Bundles.BundleRefines | efp.h:1590-1636 | a bundle does what its members would do one by one up to the first result that is neither OK nor DUPLICATE; a foreign member ends it with an error |
| Bundles.FrameRefines | efp.h:879-907 | a stand-alone frame is handled as the packet it encodes |
| Sequence.UnwrapTracks | efp.h:1152-1165 | if numbers move by less than 2^15 per call, the 64-bit order differs from the true number by one constant through any number of wraps |
| Sequence.OpeningIncreases | efp.h:1196-1202 | within the ring window the orders opened in one bucket strictly increase |
| Sequence.AtMostOnce | efp.h:1196-1202 | if the packets that reach a free bucket keep these two conditions, then over every run from a new receiver each delivered frame has the low bits of a true number that arrived, and no two frames have the same one |
| Unrolling.DispatchFolds | efp.h:879-907 | any bytes at all, bundles and malformed packets included, do what the fragments in them do one after the other |
| Unrolling.RunUnrolls | efp.h:879-914 | so a run on bytes is a run on fragments with the sweeps in between |
| Unrolling.BytesAtMostOnce | efp.h:879-1202 | at most once for runs on bytes in either mode |
| Unrolling.RunHasUnrolling | efp.h:879-914 | every run on bytes can be read that way |
| Sequence.DuplicateExactly | efp.h:1196-1202 | within the window a duplicate of a delivered frame is FRAGMENT_TOO_OLD exactly while its slot was last opened under its own number |
| Reopening.OpenedTwiceExactly | efp.h:1196-1218 | without any window: over every run from a new receiver each opening comes out once under its true number or is pending, and nothing else comes out; no number is opened twice if and only if each packet of a number opened before, if it reaches its slot free and could open it, finds that no other number has taken the slot since |
| Reopening.DeliveredTwiceExactly | efp.h:1196-1705 | so once nothing is pending, a number has come out twice exactly if some packet came after its slot had gone to another number |
| Reopening.BytesTwiceExactly | efp.h:879-1705 | the same for runs on bytes in either mode |
| EndToEnd.OwnAccepted | efp.h:1250-1285 | each fragment of a job is accepted once and reported as duplicate afterwards, and adds exactly its own bit |
| EndToEnd.LateDuplicate | efp.h:1198-1202 | after delivery a duplicate is too old and changes no bucket |
| EndToEnd.OtherLeaves | efp.h:1250-1255 | while a bucket collects, no packet of another superframe changes it, on its own ring slot or another |
| EndToEnd.OnlyOpened | efp.h:1197-1218 | a packet opens an order anew only if its number unwraps to that order and its free slot did not have it last |
| EndToEnd.FeedDelivers | efp.h:1172-1705 | whatever arrives of other superframes, or of other senders under the same number, in whatever order, the frame is delivered once and as sent, or not yet |
| EndToEnd.EndToEnd | efp.h:1172-1705 | all fragments in any order with any duplicates, mixed with traffic of other superframes on any slot, with packets of other streams and sources that use the same number, and with sweeps, and no timeout: exactly one unbroken frame with the original bytes and metadata; the first one need only be able to open a bucket |
| EndToEnd.EndToEndAlone | efp.h:1172-1705 | the same from the times of the sweeps alone, with nothing assumed of the run |
| Incomplete.BrokenAsReceived | efp.h:1172-1705 | if only some fragments come before a deadline, in any order and with the same other traffic, exactly one frame comes out, marked broken: it holds the bytes of each of them where the whole frame would have them; its metadata are the job's if Type2 was among them, and otherwise the type and code remembered for the stream, no timestamps, and the fragments' flags |
| Incomplete.RunTold | efp.h:1234-1236 | over every run on bytes, what is remembered for a stream is the type and code of the last Type2 fragment of that stream that was taken (written at 1362-1364 and 1441-1443) |
| Loads.SendCarries | efp.h:279-326 | whatever waits for retransmission, the packets of one send carry each fragment exactly once, alone or in bundles with at most one retransmit in front |
| Loads.FrontsAreType1 | efp.h:689-703 | the retransmits in front are Type1 frames if every live queued request of that size is for one |
| BundleTraffic.BundleHandled | efp.h:680-740 | a bundle of new fragments does at the receiver what the fragments would do alone |
| BundleTraffic.BundleWithRetransmit | efp.h:1614-1633 | a Type1 retransmit in front is handled first; a result such as FRAGMENT_TOO_OLD keeps the new fragments behind it from being handled |
| BundleTraffic.BundleRejected | efp.h:689-703 | a retransmit of equal length that is not Type1 is bundled all the same, and the receiver rejects the bundle with the new fragments in it |
| Transmission.TransmissionDelivers | efp.h:879-914 | packets as bytes in any order and number, with traffic of other superframes on any slot, of other senders under the same number, and timely sweeps: one unbroken frame if every fragment was brought by a packet that no front ended, and otherwise none, with at most a broken one when the deadline comes |
| Transmission.SendThenReceive | efp.h:279-326 | `send` to delivery for every payload, MTU and mode, with retransmits waiting: the frame comes out once, unbroken and as sent (bytes, PTS, payload type and code, stream, high-nibble flags, and the DTS whenever it fits) if and only if each packet of the call arrived at least once without its front ending it |
| Transmission.FrontsByResult | efp.h:689-703 | if every live queued request of the size of a new frame is for a Type1 frame, a front ends its bundle only by a result other than OK and DUPLICATE |
| Transmission.PlainSendThenReceive | efp.h:279-326 | without bundling or with nothing queued, and without other traffic, it is enough that each packet arrives once before the deadlines |
| Streaming.StreamComesOut | efp.h:279-326 | from a new sender and a new receiver, without retransmits: after any number of accepted sends, past any number of wraps, the packets of each in any order and number before the deadlines and one send after the other, exactly one unbroken frame for each has come out, with its own data and metadata, in send order |
| NackService.NackMessageApplied | efp.h:228-276 | the sender accepts an encoded message of valid entries and applies exactly those |
| NackService.RequestExact | efp.h:256-270 | it queues exactly the asked-for fragments that are retained, match the stream and are not queued already, in order |
| NackService.DrainExact | efp.h:338-359 | draining the queue sends exactly the live requests, oldest first |
| Repair.AskedMissing | efp.h:1042-1111 | a NACK asks only for missing fragments, each once |
| Repair.AskedEnough | efp.h:1042-1111 | it asks for all of them if 255 ranges suffice, and for none only if none is missing |
| Repair.RepairRound | efp.h:228-359 | one loss-free round NACK, request, retransmit, receive completes the bucket, or strictly shrinks what is missing if there are more than 255 ranges |
| SweptRounds.RoundThroughReceive | efp.h:879-914 | the same round through `receive` in either mode, before the deadlines where it sweeps: the frame comes out once its bucket is full, certainly in RUN_TO_COMPLETION mode if 255 ranges sufficed, or the bucket has all it asked for; nothing is added that was not among the answers |
| Holding.SendBacks | efp.h:421-451 | a send whose frames fit the byte limit together leaves each of them in the store, through all the evictions and retransmits of the call, if nothing of its number was left |
| Holding.SendQueuesNothing | efp.h:279-326 | no send puts a request into the retransmit queue |
| Holding.RoundRepairs | efp.h:228-359 | such a round leaves the sender ready for the next one; if nothing of the superframe was queued the bucket gets exactly what it asked for |
| Retries.TurnAsks | efp.h:1115-1150 | a sweep before the deadlines and after the delay sends the NACK of the incomplete bucket if a retry is left; once it is answered the frame comes out, or the bucket has more than before, exactly what was asked for if nothing of the superframe was queued |
| Retries.GivenUp | efp.h:1670-1705 | a sweep at a deadline gives the incomplete bucket up as a broken frame, even if the same sweep sends a NACK for it |
| Retries.RangesRepaired | efp.h:1115-1150 | sweeps at any times before the deadlines, the delay of each as it then is, every NACK for the superframe answered in full, nothing of it queued, enough retries: while fewer NACKs have gone out than it takes to list the missing ranges, 255 a message, just the others are missing and nothing came out; from that many on the frame has come out, or is complete for the next sweep |
| Retries.FragmentsRepaired | efp.h:1115-1150 | whatever is queued besides, before the deadlines as many NACKs as fragments are missing suffice, if the configured retries allow that many |
| Retries.LossRepaired | efp.h:228-451 | so after a send with room and any loss of its packets but the first to arrive, that many NACKs, sent by sweeps before the deadlines and answered in full, make the frame come out as it was sent, in either mode; in THREADED mode once, and with exactly that many NACKs |
| Boundaries.LargestPayloadAccepted | efp.h:286-288 | with MTU 65535 the sender accepts 100 MiB although the receiver's sum exceeds its limit |
| Boundaries.LargestPayloadRejected | efp.h:1204-1208 | no Type1 fragment of such a job opens a bucket |
| Boundaries.Type3Rejected | efp.h:1477-1482 | a Type3 fragment of such a job is rejected in any state, so a job with one is never complete |
| Boundaries.ChecksPass | efp.h:1317-1322 | without Type3 every fragment passes its own checks, whatever the slots come to |
| Boundaries.OpensExactly | efp.h:1204-1208 | and a free slot opens for such a job exactly if Type2 comes first, or if the slots are within the limit |
| Boundaries.LaterFrameFirst | efp.h:1670-1705 | frames are ordered within one sweep only: frame 1 can be delivered before frame 0 |
| Boundaries.DuplicateReopens | efp.h:1196-1202 | a duplicate whose number is exactly one ring behind the newest opens its slot again, and frame 0 is delivered twice |
| LostFronts.Type2InBundle | efp.h:689-703 | a run that gets a Type2 member into a bundle: HALF, MTU 256, 100 bytes sent and asked for again, then 500 bytes |
| LostFronts.NewFragmentsLost | efp.h:1614-1633 | a frame is sent and delivered, its first fragment asked for again, the next frame sent: the receiver ends the first bundle of that frame with FRAGMENT_TOO_OLD and takes in none of its new fragments |
| LostFronts.LossHappens | efp.h:689-703 | a new sender and receiver with two payloads of 500 bytes get there |
| Delivery.StepKeepsInv | efp.h:1719-1744 | every step of every thread keeps mutual exclusion, the meaning of the ready flag, frame order, and that a due wake-up is still to come |
| Delivery.Reachable | efp.h:1719-1744 | in every reachable state: flag equals queue non-empty while the mutex is free, no lost wake-up, and callbacks are a prefix of the pushed frames |
| Delivery.RunHands | efp.h:1699-1703 | over every run: what the worker has pushed and what it still holds are the frames of all its sweeps, one after the other |
| Delivery.SweepsOnTheWay | efp.h:1656-1746 | so the frames of all sweeps are those that the callback has received, the delivery thread has in hand, are queued and the worker holds, each once and in that order |
| Delivery.Progress | efp.h:1719-1746 | until stop, while one has not reached the callback, some thread has a step that brings one on |
| Delivery.NoSetback | efp.h:1719-1746 | no step takes one back, and each step of the delivery thread brings one on |
| Delivery.Arrives | efp.h:1719-1746 | so a bounded number of such steps brings all of them to the callback |
| Handover.EveryDueFrameArrives | efp.h:1670-1746 | receiver and threads together, in every reachable state: the frames due in the sweeps so far are on their way in that sense, and without stop all of them reach the callback, once and in order |
| Delivery.NoDeadlock | efp.h:944-965 | until stop has returned some thread can make a step without a new call and without a spurious wake-up |
| Delivery.ShutdownEnds | efp.h:944-965 | once the running flag is cleared at most a fixed number of steps remain under any schedule |
| Delivery.ShutdownCompletes | efp.h:957-964 | they can only run out with both threads joined |
| Delivery.ShutdownDelivers | efp.h:944-965 | from the moment the running flag is cleared, every completion delivers every pushed frame if and only if the worker holds no frame and the queue is empty, or holds one frame while the delivery thread is past its test of the flag |
| Delivery.Completion | efp.h:944-965 | and every such schedule can be completed |
| Delivery.FrameLeftBehind | efp.h:1720-1729 | a queued frame can stay undelivered when stop comes |
| Embedded.AddEmbeddedData | efp_c_api.cpp:334-368 | the buffer holds header, section and payload and is otherwise unchanged; without a buffer the size is returned |
| Embedded.ExtractEmbeddedData | efp_c_api.cpp:370-412 | result, section and payload offset, and what is written to the caller's buffer |
| Embedded.ReceiveFrame | efp_c_api.cpp:81-129 | the loop reports the sections of `Walk` in order and then the payload |
| Embedded.NestParse | efp_c_api.cpp:81-129 | any non-empty list of sections with types 1 to 127 and sizes up to 65535, nested with the innermost marked last, comes back in order, followed by the payload |
| Embedded.SectionRoundTrip | efp_c_api.cpp:347-353 | one section is read back if and only if its type is 1 to 127 and its size fits 16 bits |
| Embedded.ExtractIsFirstStep | efp_c_api.cpp:370-412 | the one-section reader agrees with the first step of the walk, and the walk goes on where the reader says the payload starts |
| Embedded.PayloadInside | efp_c_api.cpp:92-113 | the payload handed on lies inside the frame if and only if the walk does not end at a marked section that runs past the end |
| Embedded.PayloadOutside | efp_c_api.cpp:106-117 | an instance of that |
| Bandwidth.BandwidthManager.HandleHealthChange | bandwidth_manager.h:468-526 | the two loops compute `HealthChange`, calls included |
| Bandwidth.BandwidthManager.TryBandwidthIncrease | bandwidth_manager.h:542-586 | the loop computes `Probe` |
| Bandwidth.BandwidthManager.GetTargetMultiplier | bandwidth_manager.h:588-609 | the target lies in the stream's range and does not rise as health worsens |
| Bandwidth.Stream.TargetIsNearest | bandwidth_manager.h:588-609 | it is the one point of the range nearest to the nominal 1.0, 0.7, 0.5 or the lower bound |
| Bandwidth.HealthStep | bandwidth_manager.h:468-526 | what a change of health does to each stream: an overridden one stays; a worsening leaves the lower of its multiplier and the point of its range nearest to the new nominal value, and drops it exactly if it was dropped or health is SEVERE and it is set up for that; an improvement adds one increment up to that point and takes it up again |
| Bandwidth.SettingStep | bandwidth_manager.h:611-630 | what a setting does: its stream goes to the point of its range nearest to its override, or to the nominal value without one; no other stream changes |
| Bandwidth.WorseningRuns | bandwidth_manager.h:475-496 | over every run in which health never improves, whatever is set in between, each stream without an override ends at the point nearest to the nominal value of the worst health reached |
| Bandwidth.WorseningFromNew | bandwidth_manager.h:475-496 | so from a new manager all streams are at 1.0, 0.7, 0.5 or 0.0 by the worst health, and the callbacks have said so |
| Bandwidth.BandwidthManager.UpdateStreamMultiplier | bandwidth_manager.h:611-630 | the multiplier becomes the clamped override or the target, and a change is reported |
| Bandwidth.BandwidthManager.SetStreamConfig | bandwidth_manager.h:150-155 | one step `Configure` |
| Bandwidth.BandwidthManager.SetManualMultiplier | bandwidth_manager.h:408-412 | one step `SetManual`, clamped to 0..1 |
| Bandwidth.BandwidthManager.ClearManualMultiplier | bandwidth_manager.h:414-418 | one step `ClearManual` |
| Bandwidth.InitialInv | bandwidth_manager.h:128-134 | a new manager satisfies what the next three rows keep |
| Bandwidth.RunKeepsInv | bandwidth_manager.h:468-630 | over every sequence of operations each multiplier is in its stream's range, an overridden one equals the clamped override, any other is at most the target for the health |
| Bandwidth.RunKeepsTold | bandwidth_manager.h:468-634 | the callbacks alone always tell each stream's multiplier and drop state |
| Bandwidth.RunKeepsNews | bandwidth_manager.h:485-634 | and none of them repeats what the one before it said of the stream |
| Bandwidth.DropStep | bandwidth_manager.h:482-520 | one operation leaves "dropped only under SEVERE" exactly if it improves the health while the dropped stream is overridden, and restores it exactly if it takes the stream up again |
| Bandwidth.DroppedExactly | bandwidth_manager.h:482-520 | over every run it holds at the end if and only if the stream was taken up again after it was last stranded |
| Bandwidth.OverriddenIs | bandwidth_manager.h:408-418 | a stream is overridden exactly if the last operation about its override set one |
| Bandwidth.NeverManual | bandwidth_manager.h:482-520 | in particular a stream that is never overridden is dropped only while congestion is SEVERE |
| Bandwidth.DroppedThoughHealthy | bandwidth_manager.h:499-519 | with an override in between it can stay dropped at HEALTHY |
| Bandwidth.FullRecovery | bandwidth_manager.h:542-586 | a probe from DEGRADED restores the full multiplier exactly if one increment bridges the distance or the range is a point, and further probes change nothing |
| Bandwidth.FullClimb | bandwidth_manager.h:542-586 | three probes from SEVERE do so exactly if the increments bridge the distance from the lower bound and from each target on the way |
| Bandwidth.RecoveryStops | bandwidth_manager.h:542-586 | in the default range an increment under 0.3 never does |

## Where code and documentation differ

The model follows the code.

- `nack_and_hol_information.md` (line 107) promises delivery in strict order. Only the frames of one sweep are
  ordered (`Boundaries.LaterFrameFirst`); `FrameOrder.RunOrder` says which runs are.
- A comment at efp.h:689 says that only Type1 retransmits enter a bundle; the test at efp.h:696 is on length
  alone (`LostFronts.Type2InBundle`, `BundleTraffic.BundleRejected`); `Retransmits.BundlesType1` says when the
  comment is right.
- The sender limits the payload, the receiver limits slots (`Boundaries.LargestPayloadAccepted`,
  `Placement.OpenersWithinLimit`). For a job beyond the receiver's limit only Type2 opens a bucket; from there on
  it is delivered like any other (`Boundaries.OpensExactly`, `EndToEnd.EndToEnd`), unless it has a Type3
  (`Boundaries.Type3Rejected`).
- `mRetentionMaxBytes` is a limit on what is held, but reuse of a key can exceed it
  (`RetentionLimits.LimitExceeded`), exactly as `RetentionLimits.LimitKept` says.
- Recovery by probing adds one increment per improvement and returns to full bandwidth only under
  `Bandwidth.FullRecovery` and `Bandwidth.FullClimb`; with the defaults it does not (`Bandwidth.RecoveryStops`).
- The queue of frames to deliver is not drained at shutdown (`Delivery.FrameLeftBehind`);
  `Delivery.ShutdownDelivers` says when nothing is lost.

## Left out

- Sequence.AtMostOnce: assumes of each packet that reaches a free bucket that its true number moves by less than
  2^15 and is less than one ring behind the newest; `Reopening.OpenedTwiceExactly` drops the second condition.
- Transmission.SendThenReceive: assumes that sweeps come before the deadlines, that the job's slot is free when its
  first packet comes, and that no other packet has its number, stream and source while it is collected.
- Streaming.StreamComesOut: takes the packets of one send after those of the one before; with others in between,
  `Transmission.SendThenReceive` gives the same for each send, and `FrameOrder.RunOrder` says when the order is kept.
- Repair.RepairRound: assumes that what is missing is retained; `Holding.SendBacks` says when that is so.
- Retries.LossRepaired: takes it that nothing arrives between the sweeps but the answers, and, in RUN_TO_COMPLETION
  mode, that the delay is positive when a NACK is sent, as it is until 10 ms before the deadline.
- ReceiverClass.Receiver.DeliverFrame: hands over a copy of the bytes; that ownership of the array moves to the
  user and the bucket's pointer is cleared is not modelled.
- ReceiverClass.Receiver.ProcessNacks: takes the delay as any function of the bucket's order; jitter smoothing
  and the backoff with its cap (efp.h:1003-1035) are not modelled.
- Embedded.AddEmbeddedData: a null section or payload pointer with a size other than zero, which leaves those
  bytes of the buffer unwritten, is not modelled.
- Embedded.ExtractEmbeddedData: out-parameters that are null; the model returns all of them.
- Constructor checks of the receiver's timing parameters (efp.h:839-848): no theorem needs them.
- Several clock readings within one public call count as one; 64-bit counters and generations do not wrap.
- The pointer stored in the map of pending buckets is represented by the ring index of its bucket.
- Mutexes other than the delivery mutex: each public method is one step. Callbacks that re-enter the same
  sender or receiver.
- Failure of an allocation of more than zero bytes.
- Health evaluation, NACK-rate smoothing and RTT probing in bandwidth_manager.h: the new health is an input, and a
  probing step may come at any time. Multipliers are real numbers, without rounding.
- Statistics, except the counters of complete and broken frames.
- Handles, version calls and re-creation in efp_c_api.cpp; efp_media_types.h; sockets and the examples.
- Host byte order: little-endian.
