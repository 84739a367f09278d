/** What no packets can bring about, however malformed: more memory for a frame than the limit, empty slots, or
    timestamps that do not go together. */
module Bounded {
  import opened Wire
  import opened Fragmenter
  import opened FrameMemory
  import opened NackRanges
  import opened Ordering
  import opened Results
  import opened ReceiverSpec
  import opened ReceiverRuns
  import opened FrameOrder
  import opened Unrolling

  /** The decode time is not set, or it lies before the presentation time by what 32 bits can say. */
  predicate TimesOk(m: Meta) { m.dts == UINT64_MAX || (0 <= m.dts <= m.pts && m.pts - m.dts < UINT32_MAX) }

  /** An open bucket has some memory and no more than 100 MiB, and each of its slots can take something. */
  predicate WithinBounds(b: Bucket) {
    b.active ==> 0 < |b.asm.mem| <= 104857600 && (b.asm.of > 0 ==> b.asm.fragSize > 0) && TimesOk(b.meta)
  }

  /** A frame is no larger, and its number is the low half of the number it was queued under. */
  predicate Sound(d: Delivered) { |d.data| <= 104857600 && TimesOk(d.meta) && d.frameNo == d.order % 0x1_0000 }

  ghost predicate AllBounded(s: Receiver) {
    (forall b <- s.buckets :: WithinBounds(b)) && forall d <- s.delivered :: Sound(d)
  }

  lemma OpensWithin(cfg: Settings, s: Receiver, p: Packet, order: int, source: Byte, now: int)
    requires s.Sized() && HeaderError(p) == Ok && 0 < AllocSize(p) <= MAX_SUPERFRAME_SIZE && InBounds(p)
    ensures WithinBounds(OpenBucket(cfg, s, p, order, source, now))
  {
    hide Settings.TimeoutUs, Write;
    if p.Type3? { EmptySlots(p.ofNo + 1); }
    if p.Type1? { EmptySlots(p.ofNo + 1); }
  }

  lemma {:induction false} EmptySlots(n: nat)
    ensures Slot(0, n) == 0
  {
    if n > 0 { EmptySlots(n - 1); }
  }

  lemma AcceptsWithin(b: Bucket, p: Packet, source: Byte)
    requires HeaderError(p) == Ok && b.asm.Ok() && BucketError(b, p, source) == Ok && WithinBounds(b) && b.active
    ensures Placeable(b.asm, p) && WithinBounds(Accept(b, p))
  {
    AcceptedPlaceable(b, p, source);
    PlaceFits(b.asm, p);
    hide BucketError, Assembly.Ok, Placeable, Slot, Type2Offset, Write, Move;
  }

  lemma HandleBounded(cfg: Settings, s: Receiver, p: Packet, source: Byte, now: int)
    requires s.Sized() && s.BucketsOk() && AllBounded(s)
    ensures AllBounded(Handle(cfg, s, p, source, now).0)
  {
    hide HeaderError, AllocSize, BucketError, Accept, Placeable, OpenBucket, NextOrder, Assembly.Ok, WithinBounds,
         Sound;
    if HeaderError(p) == Ok {
      HeaderOkInBounds(p);
      var b, order := s.buckets[s.Index(p.frameNo)], NextOrder(s, p.frameNo);
      if b.active {
        if BucketError(b, p, source) == Ok { AcceptsWithin(b, p, source); }
      } else {
        Unopened(OpenBucket(cfg, Recalculated(s, p.frameNo), p, order, source, now));
        SizeWithin(p);
        if 0 < AllocSize(p) <= MAX_SUPERFRAME_SIZE {
          OpensWithin(cfg, Recalculated(s, p.frameNo), p, order, source, now);
        }
      }
    }
  }

  lemma Unopened(b: Bucket)
    ensures WithinBounds(b.(active := false))
  {
  }

  lemma SizeWithin(p: Packet)
    requires HeaderError(p) == Ok
    ensures p.Type1? || AllocSize(p) <= MAX_SUPERFRAME_SIZE
  {
  }

  lemma {:induction false} FoldBounded(cfg: Settings, s: Receiver, ps: seq<Packet>, source: Byte, now: int)
    requires s.TableOk() && AllBounded(s)
    ensures AllBounded(Fold(cfg, s, ps, source, now))
    decreases |ps|
  {
    TableIsSized(s);
    hide Handle, Receiver.TableOk, AllBounded;
    if ps != [] {
      HandleKeepsTable(cfg, s, ps[0], source, now);
      HandleBounded(cfg, s, ps[0], source, now);
      FoldBounded(cfg, Handle(cfg, s, ps[0], source, now).0, ps[1..], source, now);
    }
  }

  lemma SweepBounded(cfg: Settings, s: Receiver, now: int, delay: int -> int)
    requires s.TableOk() && AllBounded(s)
    ensures AllBounded(Sweep(cfg, s, now, delay))
  {
    hide Sweep, Batch, Frames, Due, Receiver.BucketsOk, Receiver.Pending, WithinBounds, Sound, Receiver.Listed;
    var t, batch := Sweep(cfg, s, now, delay), Batch(cfg, s, now);
    SweepDelivers(cfg, s, now, delay);
    forall i | 0 <= i < |s.buckets| ensures |t.buckets| == |s.buckets| && WithinBounds(t.buckets[i]) {
      SweepBucket(cfg, s, now, delay, i);
      SweptWithin(s.buckets[i], t.buckets[i]);
    }
    if |s.buckets| > 0 { SweepBucket(cfg, s, now, delay, 0); }
    forall k | 0 <= k < |batch| ensures Sound(Frames(s, batch)[k]) {
      assert batch[k] in batch;
      FramesAt(s, batch, k);
      FrameSound(s, batch[k]);
    }
  }

  lemma SweptWithin(b: Bucket, c: Bucket)
    requires WithinBounds(b) && (c.active ==> OnlyNackTiming(b, c))
    ensures WithinBounds(c)
  {
  }

  lemma FrameSound(s: Receiver, o: int)
    requires s.TableOk() && o in s.table && AllBounded(s)
    ensures s.Pending(o) && s.buckets[s.table[o]].asm.Ok() && Sound(DeliveredFrame(s.buckets[s.table[o]]))
  {
    assert s.Pending(o) && s.Listed(s.table[o]);
    assert WithinBounds(s.buckets[s.table[o]]);
  }

  lemma StepBounded(cfg: Settings, s: Receiver, e: Event)
    requires s.TableOk() && AllBounded(s)
    ensures AllBounded(Step(cfg, s, e))
  {
    hide Dispatch, Sweep, Handled, Fold, Receiver.TableOk, Step, Sweeps, AllBounded;
    StepIs(cfg, s, e);
    if e.Arrive? {
      DispatchFolds(cfg, s, e.data, e.source, e.now);
      FoldBounded(cfg, s, Handled(cfg, s, e.data, e.source, e.now), e.source, e.now);
    }
    if Sweeps(cfg, e) { SweepBounded(cfg, Swept(cfg, s, e), e.now, e.delay); }
  }

  /** Over every run of packets as bytes, whatever they are: no open bucket has more than 100 MiB, no delivered frame is
      larger, and whatever timestamps a frame comes with go together. */
  lemma {:induction false} RunBounded(cfg: Settings, s: Receiver, events: seq<Event>)
    requires s.TableOk() && AllBounded(s)
    ensures AllBounded(Run(cfg, s, events))
    decreases |events|
  {
    hide Step, Receiver.TableOk, AllBounded;
    if events != [] {
      StepBounded(cfg, s, events[0]);
      RunBounded(cfg, Step(cfg, s, events[0]), events[1..]);
    }
  }

  lemma InitialBounded(n: nat)
    ensures AllBounded(Initial(n))
  {
  }
}
