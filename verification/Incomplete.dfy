/** What the user gets of a superframe that stays incomplete: the bytes that arrived, each at its place, and metadata
    that says what is known; and the type and code that the receiver remembers for each stream. */
module Incomplete {
  import opened Wire
  import opened Fragmenter
  import opened FrameMemory
  import opened Placement
  import opened NackRanges
  import opened Ordering
  import opened Results
  import opened ReceiverSpec
  import opened ReceiverRuns
  import opened EndToEnd
  import opened FrameOrder
  import opened Unrolling

  // ----- what is remembered of a stream -----

  /** The fragment is the last one of a superframe of this stream, and the receiver took it, with or without memory
      for it. */
  predicate Tells(cfg: Settings, s: Receiver, p: Packet, source: Byte, now: int, x: Byte)
    requires s.Sized() && s.BucketsOk()
  {
    var r := Handle(cfg, s, p, source, now).1;
    p.Type2? && p.stream == x && (r == Ok || r == MemoryAllocationError)
  }

  lemma HandleTells(cfg: Settings, s: Receiver, p: Packet, source: Byte, now: int, x: Byte)
    requires s.Sized() && s.BucketsOk()
    ensures var t := Handle(cfg, s, p, source, now).0;
      && |t.streams| == 256
      && t.streams[x as int] == if Tells(cfg, s, p, source, now, x) then StreamInfo(p.payloadType, p.code)
                                else s.streams[x as int]
  {
    hide HeaderError, AllocSize, BucketError, Place, Placeable, FrameMemory.Open, Assembly.Ok, OpenMeta, NextOrder;
    NotOk(p, s, source);
  }

  /** A fragment that fails a check tells nothing. */
  lemma NotOk(p: Packet, s: Receiver, source: Byte)
    requires s.Sized() && s.BucketsOk()
    ensures HeaderError(p) != MemoryAllocationError
    ensures HeaderError(p) == Ok && s.buckets[s.Index(p.frameNo)].active ==>
      BucketError(s.buckets[s.Index(p.frameNo)], p, source) != MemoryAllocationError
  {
    hide AllocSize, Assembly.Ok;
  }

  function ToldBy(cfg: Settings, s: Receiver, ps: seq<Packet>, source: Byte, now: int, x: Byte, info: StreamInfo):
    StreamInfo
    requires s.TableOk()
    decreases |ps|
  {
    if ps == [] then info
    else
      HandleKeepsTable(cfg, s, ps[0], source, now);
      ToldBy(cfg, Handle(cfg, s, ps[0], source, now).0, ps[1..], source, now, x,
             if Tells(cfg, s, ps[0], source, now, x) then StreamInfo(ps[0].payloadType, ps[0].code) else info)
  }

  lemma {:induction false} FoldTold(cfg: Settings, s: Receiver, ps: seq<Packet>, source: Byte, now: int, x: Byte)
    requires s.TableOk() && |s.streams| == 256
    ensures var t := Fold(cfg, s, ps, source, now);
      |t.streams| == 256 && t.streams[x as int] == ToldBy(cfg, s, ps, source, now, x, s.streams[x as int])
    decreases |ps|
  {
    TableIsSized(s);
    hide Handle, Tells, Receiver.TableOk;
    if ps != [] {
      HandleKeepsTable(cfg, s, ps[0], source, now);
      HandleTells(cfg, s, ps[0], source, now, x);
      FoldTold(cfg, Handle(cfg, s, ps[0], source, now).0, ps[1..], source, now, x);
    }
  }

  /** What the last fragments of stream `x` that were taken so far said, or what was known before. */
  function LastTold(cfg: Settings, s: Receiver, events: seq<Event>, x: Byte, info: StreamInfo): StreamInfo
    requires s.TableOk()
    decreases |events|
  {
    if events == [] then info
    else
      var e := events[0];
      LastTold(cfg, Step(cfg, s, e), events[1..], x,
               ToldBy(cfg, s, FragmentsOf(cfg, s, e), if e.Arrive? then e.source else 0, e.now, x, info))
  }

  lemma StepTold(cfg: Settings, s: Receiver, e: Event, x: Byte)
    requires s.TableOk() && |s.streams| == 256
    ensures var t := Step(cfg, s, e);
      |t.streams| == 256 && t.streams[x as int]
        == ToldBy(cfg, s, FragmentsOf(cfg, s, e), if e.Arrive? then e.source else 0, e.now, x, s.streams[x as int])
  {
    hide Dispatch, Sweep, Handled, Fold, Receiver.TableOk, Step, Sweeps;
    StepIs(cfg, s, e);
    if e.Arrive? {
      DispatchFolds(cfg, s, e.data, e.source, e.now);
      FoldTold(cfg, s, Handled(cfg, s, e.data, e.source, e.now), e.source, e.now, x);
    }
    if Sweeps(cfg, e) { SweepSequence(cfg, Swept(cfg, s, e), e.now, e.delay); }
  }

  /** Over every run of packets as bytes: what is remembered for a stream is the type and code of the last Type2
      fragment of that stream that the receiver took, even if it got no memory for it, and nothing else. */
  lemma {:induction false} RunTold(cfg: Settings, s: Receiver, events: seq<Event>, x: Byte)
    requires s.TableOk() && |s.streams| == 256
    ensures var t := Run(cfg, s, events);
      |t.streams| == 256 && t.streams[x as int] == LastTold(cfg, s, events, x, s.streams[x as int])
    decreases |events|
  {
    hide Step, ToldBy, FragmentsOf, Receiver.TableOk;
    if events != [] {
      StepTold(cfg, s, events[0], x);
      RunTold(cfg, Step(cfg, s, events[0]), events[1..], x);
    }
  }

  // ----- a bucket that waits for fragments -----

  /** The size of a frame without its last fragment: up to the end of Type3 if that came and was not the first, and
      all slots otherwise. */
  function SizeSoFar(job: Job, first: nat, got: set<nat>): nat
    requires job.Valid()
  {
    if LateType3(job, got) && first != job.Of() - 1 then job.Start(job.Of()) else Slot(job.f, job.Of() + 1)
  }

  /** Type and code are those remembered when the first fragment came, there are no timestamps, and the flags are those
      of the fragments. */
  function MetaSoFar(job: Job, source: Byte, info: StreamInfo): Meta {
    Meta(info.payloadType, info.code, UINT64_MAX, UINT64_MAX, job.flags, job.stream, source)
  }

  ghost predicate Waits(b: Bucket, job: Job, source: Byte, order: int, first: nat, info: StreamInfo) {
    && Collects(b, job, source, order)
    && (job.Of() !in b.asm.received ==>
          b.asm.size == SizeSoFar(job, first, b.asm.received) && b.meta == MetaSoFar(job, source, info))
  }

  lemma OpensWaiting(cfg: Settings, s: Receiver, job: Job, k: nat, source: Byte, now: int)
    requires s.TableOk() && Good(job) && k <= job.Of() && OpensAt(job, k)
    requires !s.buckets[s.Index(job.frameNo)].active
    requires NextOrder(s, job.frameNo) != s.buckets[s.Index(job.frameNo)].order
    ensures var t := Handle(cfg, s, job.Fragment(k), source, now).0;
      && |t.buckets| == |s.buckets|
      && Waits(t.buckets[s.Index(job.frameNo)], job, source, NextOrder(s, job.frameNo), k, s.streams[job.stream as int])
      && t.buckets[s.Index(job.frameNo)].asm.received == {k}
  {
    OwnOpens(cfg, s, job, k, source, now);
    FragmentHeaderOk(job, k);
    FragmentNumbers(job, k);
    OpensWith(job, k);
    hide AllocSize, HeaderError, Placed, Assembly.Ok, NextOrder, Receiver.Pending, Receiver.Listed, Open, SizeSoFar,
         Job.Valid, Collects;
  }

  lemma OpensWith(job: Job, k: nat)
    requires job.Valid() && k <= job.Of() && InBounds(job.Fragment(k))
    ensures k < job.Of() ==> Open(job.Fragment(k)).size == SizeSoFar(job, k, {k})
  {
    FragmentNumbers(job, k);
    hide Slot, Write;
  }

  lemma AcceptsWaiting(b: Bucket, job: Job, k: nat, source: Byte, order: int, first: nat, info: StreamInfo)
    requires Good(job) && k <= job.Of() && k !in b.asm.received && HeaderError(job.Fragment(k)) == Ok
    requires Waits(b, job, source, order, first, info) && first in b.asm.received
    ensures Placeable(b.asm, job.Fragment(k)) && Waits(Accept(b, job.Fragment(k)), job, source, order, first, info)
  {
    NewAccepted(b, job, k, source, order);
    FragmentNumbers(job, k);
    hide SlotsHold, At, HeaderError, Placeable, Slot, Write, Move, Good;
    if k < job.Of() && job.Of() !in b.asm.received { GrowsBy(b.asm, job, k, first); }
  }

  /** Of the fragments before the last one only Type3 says more about the size. */
  lemma GrowsBy(a: Assembly, job: Job, k: nat, first: nat)
    requires a.Ok() && Placed(a, job) && k < job.Of() && k !in a.received && job.Of() !in a.received
    requires first in a.received && a.size == SizeSoFar(job, first, a.received)
    requires Placeable(a, job.Fragment(k))
    ensures Place(a, job.Fragment(k)).size == SizeSoFar(job, first, a.received + {k})
    ensures job.Of() !in Place(a, job.Fragment(k)).received
  {
    hide SlotsHold, At, Write, Move, Slot, SizeSoFar, Job.Start, Job.Payload, Placeable;
    FragmentNumbers(job, k);
    ShapeOf(a, job);
    SizeGrows(job, first, k, a.received);
    hide Placed, Assembly.Ok, Job.Valid;
    PlaceFits(a, job.Fragment(k));
  }

  lemma ShapeOf(a: Assembly, job: Job)
    requires a.Ok() && Placed(a, job)
    ensures a.of == job.Of() && a.fragSize == job.f && (job.Of() !in a.received ==> a.type2 == 0)
  {
    hide SlotsHold, At;
  }

  lemma SizeGrows(job: Job, first: nat, k: nat, got: set<nat>)
    requires job.Valid() && first in got && k < job.Of() && k !in got
    ensures SizeSoFar(job, first, got + {k})
         == if k < job.cut.type1s then SizeSoFar(job, first, got) else Slot(job.f, k) + |job.Payload(k)|
    ensures k >= job.cut.type1s ==> k == job.Of() - 1
  {
    SlotsApart(job, k, k);
    if k >= job.cut.type1s { FragmentNumbers(job, k); }
    hide Slot;
  }

  lemma OwnWaiting(cfg: Settings, s: Receiver, job: Job, k: nat, source: Byte, order: int, first: nat, info: StreamInfo,
                   now: int)
    requires s.TableOk() && Good(job) && k <= job.Of()
    requires Waits(s.buckets[s.Index(job.frameNo)], job, source, order, first, info)
    requires first in s.buckets[s.Index(job.frameNo)].asm.received
    ensures var t, i := Handle(cfg, s, job.Fragment(k), source, now).0, s.Index(job.frameNo);
      && |t.buckets| == |s.buckets| && Waits(t.buckets[i], job, source, order, first, info)
      && t.buckets[i].asm.received == s.buckets[i].asm.received + {k}
  {
    var p, b := job.Fragment(k), s.buckets[s.Index(job.frameNo)];
    OwnAccepted(cfg, s, job, k, source, order, now);
    FragmentHeaderOk(job, k);
    FragmentNumbers(job, k);
    if k in b.asm.received { DuplicateSeen(b, job, k, source, order); }
    else {
      NewAccepted(b, job, k, source, order);
      AcceptsWaiting(b, job, k, source, order, first, info);
    }
    assert p.frameNo == job.frameNo;
    hide AllocSize, HeaderError, Receiver.Pending, Receiver.Listed, Collects, Good, BucketError, Accept, SizeSoFar;
  }

  /** Another event, with the frame neither complete nor due. */
  lemma NextWaits(cfg: Settings, s: Receiver, job: Job, source: Byte, order: int, e: JobEvent, first: nat,
                  info: StreamInfo)
    requires s.TableOk() && Good(job) && Waits(s.buckets[s.Index(job.frameNo)], job, source, order, first, info)
    requires first in s.buckets[s.Index(job.frameNo)].asm.received
    requires var got := s.buckets[s.Index(job.frameNo)].asm.received;
      Allowed(cfg, s, job, source, order, e, Collecting(got)) && !Full(job, got)
    ensures var t, i := Next(cfg, s, job, source, e), s.Index(job.frameNo);
      && |t.buckets| == |s.buckets| && Waits(t.buckets[i], job, source, order, first, info)
      && t.buckets[i].asm.received == s.buckets[i].asm.received + (if e.Own? then {e.k} else {})
      && Having(t.delivered, order) == Having(s.delivered, order)
  {
    var i := s.Index(job.frameNo);
    hide Waits, Handle, Sweep, Having, Full, Due, Receiver.Pending, Receiver.Listed, Receiver.BucketsOk, Good;
    WaitsCollects(s.buckets[i], job, source, order, first, info);
    NextStep(cfg, s, job, source, order, e, Collecting(s.buckets[i].asm.received));
    match e {
      case Own(k, now) => OwnWaiting(cfg, s, job, k, source, order, first, info, now);
      case Other(p, src, now) => BystanderLeaves(cfg, s, job, source, order, p, src, now);
      case SweepAt(now, delay) =>
        SweepBucket(cfg, s, now, delay, i);
        TimingWaits(s.buckets[i], Sweep(cfg, s, now, delay).buckets[i], job, source, order, first, info);
    }
  }

  lemma WaitsCollects(b: Bucket, job: Job, source: Byte, order: int, first: nat, info: StreamInfo)
    requires Waits(b, job, source, order, first, info)
    ensures Collects(b, job, source, order) && b.active
  {
  }

  lemma TimingWaits(b: Bucket, c: Bucket, job: Job, source: Byte, order: int, first: nat, info: StreamInfo)
    requires Waits(b, job, source, order, first, info) && OnlyNackTiming(b, c)
    ensures Waits(c, job, source, order, first, info) && c.asm == b.asm
  {
    hide Placed, Assembly.Ok;
  }

  /** The events leave the bucket waiting. */
  lemma {:induction false} FeedWaits(cfg: Settings, s: Receiver, job: Job, source: Byte, order: int,
                                     events: seq<JobEvent>, first: nat, info: StreamInfo)
    requires s.TableOk() && Good(job) && Waits(s.buckets[s.Index(job.frameNo)], job, source, order, first, info)
    requires first in s.buckets[s.Index(job.frameNo)].asm.received
    requires var got := s.buckets[s.Index(job.frameNo)].asm.received;
      && AllowedRun(cfg, s, job, source, order, events, Collecting(got))
      && got + FragmentsIn(events) < Upto(job.Of() + 1)
    ensures forall e <- events :: e.Own? ==> e.k <= job.Of()
    ensures var t, i := Feed(cfg, s, job, source, events), s.Index(job.frameNo);
      && |t.buckets| == |s.buckets| && Waits(t.buckets[i], job, source, order, first, info)
      && t.buckets[i].asm.received == s.buckets[i].asm.received + FragmentsIn(events)
      && Having(t.delivered, order) == Having(s.delivered, order)
    decreases |events|
  {
    hide Having, Waits, Next, Receiver.TableOk, Good, Allowed, Upto, Job.Valid;
    TableIsSized(s);
    var got := s.buckets[s.Index(job.frameNo)].asm.received;
    if events == [] {
      assert got + {} == got;
    } else {
      var e := events[0];
      var more := if e.Own? then {e.k} else {};
      NextWaits(cfg, s, job, source, order, e, first, info);
      assert got + more + FragmentsIn(events[1..]) == got + FragmentsIn(events);
      assert got <= got + FragmentsIn(events) && (!e.Own? ==> got + more == got);
      TableIsSized(Next(cfg, s, job, source, e));
      FeedWaits(cfg, Next(cfg, s, job, source, e), job, source, order, events[1..], first, info);
    }
  }

  /** The bytes of the fragments that arrived, where the whole frame would have them: all but the last at their slots,
      and the last behind Type3, or in its own slot as long as Type3 is missing. */
  ghost predicate HoldsWhatCame(f: Delivered, job: Job, got: set<nat>)
    requires job.Valid()
  {
    forall k <- got :: k <= job.Of() ==>
      At(f.data, if k < job.Of() then Slot(job.f, k) else Type2Place(job, got), job.Payload(k))
  }

  /** The frame of an incomplete superframe: which bytes it has and what it says of itself. */
  ghost predicate AsFarAsCame(f: Delivered, job: Job, source: Byte, order: int, first: nat, got: set<nat>,
                              info: StreamInfo)
    requires job.Valid()
  {
    && f.broken && f.order == order && f.frameNo == job.frameNo && HoldsWhatCame(f, job, got)
    && |f.data| == (if job.Of() in got then Type2Place(job, got) + job.cut.type2 else SizeSoFar(job, first, got))
    && f.meta == if job.Of() in got then Expected(job, source, order).meta else MetaSoFar(job, source, info)
  }

  lemma WaitingFrame(b: Bucket, job: Job, source: Byte, order: int, first: nat, info: StreamInfo)
    requires job.Valid() && Waits(b, job, source, order, first, info) && first in b.asm.received
    requires !Full(job, b.asm.received)
    ensures AsFarAsCame(DeliveredFrame(b), job, source, order, first, b.asm.received, info)
  {
    hide At, SlotsHold, Upto, SizeSoFar, Job.Valid, Type2Place, Expected, MetaSoFar, Slot;
    IncompleteFrame(b, job, source, order);
    forall k <- b.asm.received | k <= job.Of()
      ensures At(DeliveredFrame(b).data, if k < job.Of() then Slot(job.f, k) else Type2Place(job, b.asm.received),
                 job.Payload(k))
    {
      CameAt(b.asm, job, first, k);
    }
  }

  lemma CameAt(a: Assembly, job: Job, first: nat, k: nat)
    requires a.Ok() && Placed(a, job) && k in a.received && k <= job.Of()
    requires job.Of() !in a.received ==> a.size == SizeSoFar(job, first, a.received)
    ensures At(a.mem[..a.size], if k < job.Of() then Slot(job.f, k) else Type2Place(job, a.received), job.Payload(k))
  {
    hide At, Slot;
    if k < job.Of() {
      SlotsApart(job, k, k);
      SlotMono(job.f, job.Of(), job.Of() + 1);
      PrefixHolds(a, Slot(job.f, k), job.Payload(k));
    } else {
      PrefixHolds(a, Type2Place(job, a.received), job.Payload(k));
    }
  }

  lemma PrefixHolds(a: Assembly, off: nat, s: seq<Byte>)
    requires At(a.mem, off, s) && off + |s| <= a.size <= |a.mem|
    ensures At(a.mem[..a.size], off, s)
  {
    assert a.mem[..a.size][off..off + |s|] == a.mem[off..off + |s|];
  }

  /** Fragments of a good job arrive in any order, duplicated at will, with other traffic and sweeps in between, but not
      all of them before a sweep that finds a deadline reached. That sweep delivers one frame for them. It is marked
      broken and has every byte that came at its place. If the last fragment is among them, the metadata are those of
      the job; if not, type and code are what the receiver remembered for the stream when the first one came, and the
      timestamps say that there are none. */
  lemma BrokenAsReceived(cfg: Settings, s: Receiver, job: Job, source: Byte, first: nat, now: int,
                         events: seq<JobEvent>, at: int, delay: int -> int) returns (f: Delivered)
    requires s.TableOk() && Good(job) && first <= job.Of() && OpensAt(job, first)
    requires !s.buckets[s.Index(job.frameNo)].active
    requires NextOrder(s, job.frameNo) != s.buckets[s.Index(job.frameNo)].order
    requires AllowedRun(cfg, Next(cfg, s, job, source, Own(first, now)), job, source, NextOrder(s, job.frameNo), events,
                        Collecting({first}))
    requires forall e <- events :: e.Own? ==> e.k <= job.Of()
    requires {first} + FragmentsIn(events) < Upto(job.Of() + 1)
    requires var t := Feed(cfg, Next(cfg, s, job, source, Own(first, now)), job, source, events);
      Due(cfg, t.buckets[t.Index(job.frameNo)], at)
    ensures AsFarAsCame(f, job, source, NextOrder(s, job.frameNo), first, {first} + FragmentsIn(events),
                        s.streams[job.stream as int])
    ensures var order := NextOrder(s, job.frameNo);
      var t := Feed(cfg, Next(cfg, s, job, source, Own(first, now)), job, source, events);
      Having(Sweep(cfg, t, at, delay).delivered, order) == Having(s.delivered, order) + [f]
  {
    var order, t, i := NextOrder(s, job.frameNo), Next(cfg, s, job, source, Own(first, now)), s.Index(job.frameNo);
    var info := s.streams[job.stream as int];
    OwnOpens(cfg, s, job, first, source, now);
    OpensWaiting(cfg, s, job, first, source, now);
    hide Having, Waits, NextOrder, Receiver.Pending, Receiver.Listed, Receiver.BucketsOk, Handle, Feed, AllowedRun,
         Upto, AsFarAsCame, Collects, Due, DeliveredFrame, Good, Sweep;
    FeedWaits(cfg, t, job, source, order, events, first, info);
    var u := Feed(cfg, t, job, source, events);
    WaitsCollects(u.buckets[i], job, source, order, first, info);
    UnderOrder(u, i, job, source, order);
    WaitingFrame(u.buckets[i], job, source, order, first, info);
    SweepUnder(cfg, u, at, delay, i, order);
    f := DeliveredFrame(u.buckets[i]);
  }

  lemma UnderOrder(s: Receiver, i: nat, job: Job, source: Byte, order: int)
    requires s.TableOk() && i < |s.buckets| && Collects(s.buckets[i], job, source, order)
    ensures s.buckets[i].asm.Ok() && s.buckets[i].order == order && order % |s.buckets| == i
  {
    assert s.Listed(i);
    ModThroughRing(order, |s.buckets|);
  }
}
