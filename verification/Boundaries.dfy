/** Where the promises end: sizes that the sender accepts and the receiver does not, and frames that
    come out in another order than they were sent. */
module Boundaries {
  import opened Wire
  import opened Fragmenter
  import opened FrameMemory
  import opened Placement
  import opened Ordering
  import opened Results
  import opened ReceiverSpec
  import opened ReceiverRuns
  import opened EndToEnd
  import opened Transmission

  /** With the largest MTU, 100 MiB pass the sender's size check and its fragment cap. */
  lemma LargestPayloadAccepted(cfg: Config, data: seq<Byte>, payloadType: Byte, pts: Word64, dts: Word64, code: Word32,
                               stream: Byte, flags: Byte, frameNo: Word16)
    requires cfg.mtu == 65535 && cfg.mode.Single? && |data| == MAX_SUPERFRAME_SIZE
    ensures !TooManyFragments(cfg, |data|)
    ensures var job := JobOf(cfg, data, payloadType, pts, dts, code, stream, flags, frameNo);
      job.Valid() && job.cut == Cut(1600, 0, 14400) && !WithinReceiverLimit(job)
  {
    var f, limit := cfg.Type1Size(), cfg.Type2Limit();
    SlotIsProduct(f, 1600);
    SlotIsProduct(f, 1601);
    CutUnique(|data|, f, limit, Cut(1600, 0, 14400));
    JobFits(cfg, data, payloadType, pts, dts, code, stream, flags, frameNo);
  }

  /** Whichever Type1 fragment of such a job comes first, a free slot does not open for it. */
  lemma LargestPayloadRejected(cfg: Settings, s: Receiver, job: Job, k: nat, source: Byte, now: int)
    requires s.TableOk() && job.Valid() && !WithinReceiverLimit(job) && k < job.cut.type1s
    requires !s.buckets[s.Index(job.frameNo)].active
    requires NextOrder(s, job.frameNo) != s.buckets[s.Index(job.frameNo)].order
    ensures var (t, r) := Handle(cfg, s, job.Fragment(k), source, now);
      r == TooLargeFrame && t.buckets == s.buckets && t.table == s.table && t.openings == s.openings
  {
    hide NextOrder, Receiver.BucketsOk, Receiver.Pending, Receiver.Listed;
    assert AllocSize(job.Fragment(k)) == Slot(job.f, job.Of() + 1);
  }

  /** A Type3 fragment of such a job is rejected in any state, so a job that has one is never complete. */
  lemma Type3Rejected(cfg: Settings, s: Receiver, job: Job, source: Byte, now: int)
    requires s.TableOk() && job.Valid() && !WithinReceiverLimit(job) && job.cut.type3 > 0
    ensures Handle(cfg, s, job.Fragment(job.Of() - 1), source, now) == (s, TooLargeFrame)
  {
    assert AllocSize(job.Fragment(job.Of() - 1)) == Slot(job.f, job.Of() + 1);
    hide Receiver.BucketsOk, Receiver.Pending, Receiver.Listed, WithinReceiverLimit;
  }

  /** Without Type3 every fragment passes its own checks, whatever the slots come to. */
  lemma ChecksPass(job: Job)
    requires job.Valid() && job.cut.type3 == 0 && |job.data| <= MAX_SUPERFRAME_SIZE
    requires job.dtsPtsDiff == UINT32_MAX || job.dtsPtsDiff <= job.pts
    ensures Good(job)
  {
  }

  /** And such a job opens a free slot exactly if its Type2 fragment comes first, or the slots are within the
      limit; from there on it is delivered like any other. */
  lemma OpensExactly(cfg: Settings, s: Receiver, job: Job, k: nat, source: Byte, now: int)
    requires s.TableOk() && Good(job) && k <= job.Of() && !s.buckets[s.Index(job.frameNo)].active
    requires NextOrder(s, job.frameNo) != s.buckets[s.Index(job.frameNo)].order
    ensures Handle(cfg, s, job.Fragment(k), source, now).1 == Ok <==> OpensAt(job, k)
  {
    hide NextOrder, Receiver.BucketsOk, Receiver.Pending, Receiver.Listed, Good, WithinReceiverLimit;
    if OpensAt(job, k) { OwnOpens(cfg, s, job, k, source, now); }
    else { MustBeType1(job, k); LargestPayloadRejected(cfg, s, job, k, source, now); }
  }

  lemma MustBeType1(job: Job, k: nat)
    requires Good(job) && k <= job.Of() && !OpensAt(job, k)
    ensures job.Valid() && !WithinReceiverLimit(job) && k < job.cut.type1s
  {
  }

  // ----- frames of one fragment -----

  /** A frame of one fragment comes in and the receiver sweeps. */
  function SingleIn(cfg: Settings, s: Receiver, job: Job, source: Byte, now: int, delay: int -> int): (t: Receiver)
    requires s.TableOk() && Good(job)
    ensures t.TableOk()
  {
    HandleKeepsTable(cfg, s, job.Fragment(0), source, now);
    Sweep(cfg, Handle(cfg, s, job.Fragment(0), source, now).0, now, delay)
  }

  lemma SingleDue(cfg: Settings, t: Receiver, job: Job, source: Byte, order: int, now: int)
    requires job.Valid() && job.Of() == 0 && Follows(cfg, t, job, source, order, now, Gains(Collecting({}), 0, 1))
    ensures t.TableOk() && order in Batch(cfg, t, now)
    ensures t.buckets[t.Index(job.frameNo)].active && Due(cfg, t.buckets[t.Index(job.frameNo)], now)
    ensures t.buckets[t.Index(job.frameNo)].order == order
  {
    var i := t.Index(job.frameNo);
    assert t.Listed(i);
    CompleteMeansAll(t.buckets[i].asm);
    assert {} + (Upto(1) - Upto(0)) == Upto(1);
    hide Batch, Placed, Assembly.Ok;
  }

  /** Such a frame is delivered at once, behind everything delivered so far. */
  lemma SingleDelivers(cfg: Settings, s: Receiver, job: Job, source: Byte, now: int, delay: int -> int) returns (j: nat)
    requires Free(s, job) && job.Of() == 0
    ensures s.TableOk() && Good(job)
    ensures var u := SingleIn(cfg, s, job, source, now, delay);
      && s.delivered <= u.delivered && |s.delivered| <= j < |u.delivered|
      && u.delivered[j].order == NextOrder(s, job.frameNo)
  {
    hide Handle, Collects, Receiver.TableOk, Good, Sweep, NextOrder, Upto, Follows, DeliveredFrame, Due, LastOpened,
         StartedAt;
    FreeValid(s, job);
    OpensOne(cfg, s, job, source, 0, now);
    var t, order := Handle(cfg, s, job.Fragment(0), source, now).0, NextOrder(s, job.frameNo);
    SingleDue(cfg, t, job, source, order, now);
    SweepDelivers(cfg, t, now, delay);
    var batch := Batch(cfg, t, now);
    var k :| 0 <= k < |batch| && batch[k] == order;
    hide Batch, Frames;
    FramesAt(t, batch, k);
    j := |s.delivered| + k;
  }

  /** Its slot is free again under its order, its number is the one unwrapped last, and a free slot stays as
      it is. */
  lemma SingleLeaves(cfg: Settings, s: Receiver, job: Job, source: Byte, now: int, delay: int -> int, k: nat)
    requires Free(s, job) && job.Of() == 0 && k < |s.buckets|
    ensures s.TableOk() && Good(job)
    ensures var u, i := SingleIn(cfg, s, job, source, now, delay), s.Index(job.frameNo);
      && |u.buckets| == |s.buckets| && LastOpened(u, job.frameNo, NextOrder(s, job.frameNo))
      && !u.buckets[i].active && u.buckets[i].order == NextOrder(s, job.frameNo)
      && (k != i && !s.buckets[k].active ==> !u.buckets[k].active && u.buckets[k].order == s.buckets[k].order)
  {
    hide Handle, Collects, Receiver.Pending, Receiver.Listed, Receiver.BucketsOk, Good, Sweep, NextOrder, Upto, Follows,
         Due, StartedAt;
    FreeValid(s, job);
    var p, i := job.Fragment(0), s.Index(job.frameNo);
    FragmentNumber(job);
    OpensOne(cfg, s, job, source, 0, now);
    var t, order := Handle(cfg, s, p, source, now).0, NextOrder(s, job.frameNo);
    SingleDue(cfg, t, job, source, order, now);
    OwnOpens(cfg, s, job, 0, source, now);
    if k != i { OtherSlot(cfg, s, p, source, now, k); }
    SweepSequence(cfg, t, now, delay);
    SweepBucket(cfg, t, now, delay, i);
    SweepBucket(cfg, t, now, delay, k);
  }

  lemma FragmentNumber(job: Job)
    requires job.Valid()
    ensures job.Fragment(0).frameNo == job.frameNo
  {
  }

  // ----- order -----

  /** Frame 1 first, then frame 0, with a sweep in between: the user gets them in that order. Only the
      frames of one sweep are sorted. */
  lemma LaterFrameFirst(cfg: Settings, n: nat, one: Job, zero: Job, source: Byte, now: int, delay: int -> int)
    requires 1 < n && 0x1_0000 % n == 0
    requires Good(one) && Good(zero) && one.Of() == zero.Of() == 0 && one.frameNo == 1 && zero.frameNo == 0
    ensures Initial(n).TableOk()
    ensures var s := SingleIn(cfg, SingleIn(cfg, Initial(n), one, source, now, delay), zero, source, now, delay);
      exists j, k | 0 <= j < k < |s.delivered| :: s.delivered[j].order == 1 && s.delivered[k].order == 0
  {
    var s0 := Initial(n);
    InitialFree(n, one);
    assert s0.TableOk() && s0.Index(0) == 0 != s0.Index(1) && |s0.buckets| == n && s0.buckets[0] == Unused();
    hide Initial, SingleIn, Receiver.Pending, Receiver.Listed, Receiver.BucketsOk, Good;
    var j := SingleDelivers(cfg, s0, one, source, now, delay);
    SingleLeaves(cfg, s0, one, source, now, delay, 0);
    var s1 := SingleIn(cfg, s0, one, source, now, delay);
    var k := SingleDelivers(cfg, s1, zero, source, now, delay);
    assert SingleIn(cfg, s1, zero, source, now, delay).delivered[j] == s1.delivered[j];
  }

  // ----- the window -----

  /** A duplicate that comes when its number is one ring size behind the newest opens its slot again and is
      delivered a second time: frame 0, frame n of the same slot, and frame 0 once more. */
  lemma DuplicateReopens(cfg: Settings, n: nat, zero: Job, ring: Job, source: Byte, now: int, delay: int -> int)
    requires 0 < n < 0x8000 && 0x1_0000 % n == 0
    requires Good(zero) && Good(ring) && zero.Of() == ring.Of() == 0 && zero.frameNo == 0 && ring.frameNo == n
    ensures Initial(n).TableOk()
    ensures var s1 := SingleIn(cfg, Initial(n), zero, source, now, delay);
      var s2 := SingleIn(cfg, s1, ring, source, now, delay);
      var s3 := SingleIn(cfg, s2, zero, source, now, delay);
      exists j, k | 0 <= j < k < |s3.delivered| :: s3.delivered[j].order == 0 && s3.delivered[k].order == 0
  {
    hide Initial, SingleIn, Receiver.TableOk, Good, Free, NextOrder, LastOpened;
    var s0 := Initial(n);
    InitialFree(n, zero);
    InitialSlots(n);
    var j := SingleDelivers(cfg, s0, zero, source, now, delay);
    SingleLeaves(cfg, s0, zero, source, now, delay, 0);
    var s1 := SingleIn(cfg, s0, zero, source, now, delay);
    FreeNext(s1, 0, 0, ring);
    var i := SingleDelivers(cfg, s1, ring, source, now, delay);
    SingleLeaves(cfg, s1, ring, source, now, delay, 0);
    var s2 := SingleIn(cfg, s1, ring, source, now, delay);
    FreeNext(s2, ring.frameNo, n, zero);
    var k := SingleDelivers(cfg, s2, zero, source, now, delay);
    var s3 := SingleIn(cfg, s2, zero, source, now, delay);
    assert s1.delivered[j] == s2.delivered[j] == s3.delivered[j];
  }

  lemma InitialSlots(n: nat)
    requires 0 < n && 0x1_0000 % n == 0
    ensures Initial(n).TableOk() && |Initial(n).buckets| == n && Initial(n).Index(0) == 0
  {
  }

  /** A number a ring away from the one just unwrapped finds its slot free and unwraps next to it. */
  lemma FreeNext(s: Receiver, last: Word16, order: int, job: Job)
    requires s.TableOk() && Good(job) && LastOpened(s, last, order) && |s.buckets| < 0x8000
    requires (last == 0 && job.frameNo == |s.buckets|) || (last == |s.buckets| && job.frameNo == 0)
    requires !s.buckets[0].active && s.buckets[0].order == order
    ensures s.Index(job.frameNo) == 0 && Free(s, job) && NextOrder(s, job.frameNo) == order + job.frameNo - last
  {
    TableIsSized(s);
    assert s.Index(job.frameNo) == 0 by { SelfMod(|s.buckets|); }
    hide Receiver.TableOk, Receiver.Sized, Receiver.Index, Good;
  }

  lemma SelfMod(n: nat)
    requires 0 < n
    ensures n % n == 0 && 0 % n == 0
  {
  }
}
