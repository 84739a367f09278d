/** From a sender's fragments to the delivered frame: any order, any duplicates, any traffic of other
    superframes and of other senders, and sweeps in between. */
module EndToEnd {
  import opened Wire
  import opened Fragmenter
  import opened FrameMemory
  import opened Placement
  import opened NackRanges
  import opened Ordering
  import opened Results
  import opened ReceiverSpec
  import opened ReceiverRuns

  /** Fragments whose own size check the job passes in any state: all but a Type3 of a job beyond the limit
      (Type1 is checked only when it opens a bucket, Type2 for less than a whole last slot). */
  predicate HeadersPass(job: Job) {
    Slot(job.f, job.Of()) + job.cut.type2 <= MAX_SUPERFRAME_SIZE && (job.cut.type3 > 0 ==> WithinReceiverLimit(job))
  }

  /** Such a job has consistent timestamps, too. */
  ghost predicate Good(job: Job) {
    job.Valid() && HeadersPass(job) && (job.dtsPtsDiff == UINT32_MAX || job.dtsPtsDiff <= job.pts)
  }

  /** The fragment may be the first to come: Type2, or any if all slots are within the limit. */
  predicate OpensAt(job: Job, k: nat) { k == job.Of() || WithinReceiverLimit(job) }

  /** The frame the user should get. */
  function Expected(job: Job, source: Byte, order: int): Delivered {
    Delivered(order, job.frameNo, Cells(job.data),
              Meta(job.payloadType, job.code, job.pts, DtsFrom(job.pts, job.dtsPtsDiff), job.flags, job.stream, source),
              false)
  }

  /** The bucket collects this job and has the fragments in its `received` set. */
  ghost predicate Collects(b: Bucket, job: Job, source: Byte, order: int) {
    && b.active && b.order == order && b.savedNo == job.frameNo
    && b.asm.Ok() && Placed(b.asm, job)
    && b.meta.stream == job.stream && b.meta.source == source && b.meta.flags == job.flags
    && (job.Of() in b.asm.received ==> b.meta == Expected(job, source, order).meta)
  }

  // ----- one own fragment -----

  lemma FragmentHeaderOk(job: Job, k: nat)
    requires Good(job) && k <= job.Of()
    ensures HeaderError(job.Fragment(k)) == Ok && 0 < AllocSize(job.Fragment(k))
    ensures AllocSize(job.Fragment(k)) <= MAX_SUPERFRAME_SIZE <==> OpensAt(job, k)
  {
    FragmentNumbers(job, k);
    assert Slot(job.f, job.Of() + 1) == Slot(job.f, job.Of()) + job.f;
  }

  lemma OwnOpens(cfg: Settings, s: Receiver, job: Job, k: nat, source: Byte, now: int)
    requires s.TableOk() && Good(job) && k <= job.Of() && OpensAt(job, k)
    requires !s.buckets[s.Index(job.frameNo)].active
    requires NextOrder(s, job.frameNo) != s.buckets[s.Index(job.frameNo)].order
    ensures var (t, r) := Handle(cfg, s, job.Fragment(k), source, now);
      && r == Ok && t.delivered == s.delivered
      && |t.buckets| == |s.buckets|
      && Collects(t.buckets[s.Index(job.frameNo)], job, source, NextOrder(s, job.frameNo))
      && t.buckets[s.Index(job.frameNo)].asm.received == {k}
  {
    var p := job.Fragment(k);
    FragmentHeaderOk(job, k);
    OpenPlaced(job, k);
    OpenOk(p);
    FragmentNumbers(job, k);
    assert p.flags == job.flags && p.stream == job.stream && p.frameNo == job.frameNo;
    hide AllocSize, Open, HeaderError, Placed, Assembly.Ok, NextOrder, Receiver.Pending, Receiver.Listed;
  }

  lemma OwnAccepted(cfg: Settings, s: Receiver, job: Job, k: nat, source: Byte, order: int, now: int)
    requires s.TableOk() && Good(job) && k <= job.Of()
    requires Collects(s.buckets[s.Index(job.frameNo)], job, source, order)
    ensures var (t, r) := Handle(cfg, s, job.Fragment(k), source, now);
      var i := s.Index(job.frameNo);
      && r == (if k in s.buckets[i].asm.received then DuplicateFragment else Ok)
      && t.delivered == s.delivered
      && |t.buckets| == |s.buckets|
      && Collects(t.buckets[i], job, source, order)
      && t.buckets[i].asm.received == s.buckets[i].asm.received + {k}
      && t.buckets[i].timing == s.buckets[i].timing
  {
    var p, b := job.Fragment(k), s.buckets[s.Index(job.frameNo)];
    FragmentHeaderOk(job, k);
    FragmentNumbers(job, k);
    assert p.frameNo == job.frameNo && p.stream == job.stream;
    hide AllocSize, HeaderError, Receiver.Pending, Receiver.Listed;
    if k in b.asm.received {
      DuplicateSeen(b, job, k, source, order);
      assert b.asm.received + {k} == b.asm.received;
    } else {
      NewAccepted(b, job, k, source, order);
    }
  }

  lemma DuplicateSeen(b: Bucket, job: Job, k: nat, source: Byte, order: int)
    requires Good(job) && k <= job.Of() && Collects(b, job, source, order) && k in b.asm.received
    requires HeaderError(job.Fragment(k)) == Ok
    ensures BucketError(b, job.Fragment(k), source) == DuplicateFragment
  {
    FragmentNumbers(job, k);
    hide SlotsHold, At, HeaderError;
  }

  lemma NewAccepted(b: Bucket, job: Job, k: nat, source: Byte, order: int)
    requires Good(job) && k <= job.Of() && Collects(b, job, source, order) && k !in b.asm.received
    requires HeaderError(job.Fragment(k)) == Ok
    ensures BucketError(b, job.Fragment(k), source) == Ok
    ensures Placeable(b.asm, job.Fragment(k)) && Collects(Accept(b, job.Fragment(k)), job, source, order)
    ensures Accept(b, job.Fragment(k)).asm.received == b.asm.received + {k}
  {
    var p := job.Fragment(k);
    hide SlotsHold, At, HeaderError, Place;
    PlaceKeeps(b.asm, job, k);
    FragmentNumbers(job, k);
    assert k < job.Of() ==> Slot(b.asm.fragSize, k) + |p.payload| <= Slot(b.asm.fragSize, job.Of() + 1) by {
      if k < job.Of() { SlotsApart(job, k, k); }
    }
  }

  // ----- other traffic -----

  /** A packet for another ring slot leaves this bucket and the delivered frames alone. */
  lemma OtherSlot(cfg: Settings, s: Receiver, p: Packet, source: Byte, now: int, i: nat)
    requires s.TableOk() && i < |s.buckets| && s.Index(p.frameNo) != i
    ensures var t := Handle(cfg, s, p, source, now).0;
      t.delivered == s.delivered && |t.buckets| == |s.buckets| && t.buckets[i] == s.buckets[i]
  {
    hide HeaderError, BucketError, OpenBucket, AllocSize, Receiver.Pending, Receiver.Listed, Place;
  }

  /** So does a packet of another superframe that maps to the same slot while this bucket is active. */
  lemma OtherFrame(cfg: Settings, s: Receiver, p: Packet, source: Byte, now: int)
    requires s.TableOk() && s.buckets[s.Index(p.frameNo)].active && s.buckets[s.Index(p.frameNo)].savedNo != p.frameNo
    ensures Handle(cfg, s, p, source, now).0 == s
  {
    hide HeaderError, AllocSize, Receiver.Pending, Receiver.Listed, Place;
  }

  /** Either way, then, a packet of another superframe. */
  lemma OtherLeaves(cfg: Settings, s: Receiver, p: Packet, source: Byte, now: int, no: Word16)
    requires s.TableOk() && p.frameNo != no
    requires s.buckets[s.Index(no)].active && s.buckets[s.Index(no)].savedNo == no
    ensures var t := Handle(cfg, s, p, source, now).0;
      && t.delivered == s.delivered && |t.buckets| == |s.buckets|
      && t.buckets[s.Index(no)] == s.buckets[s.Index(no)]
  {
    hide Handle, Receiver.BucketsOk, Receiver.Pending, Receiver.Listed;
    if s.Index(p.frameNo) != s.Index(no) { OtherSlot(cfg, s, p, source, now, s.Index(no)); }
    else { OtherFrame(cfg, s, p, source, now); }
  }

  /** A packet of the bucket's own number, but of another stream or another source, is rejected, and changes
      nothing at all. */
  lemma ForeignRejected(cfg: Settings, s: Receiver, p: Packet, source: Byte, now: int)
    requires s.TableOk()
    requires var b := s.buckets[s.Index(p.frameNo)];
      b.active && b.savedNo == p.frameNo && (p.stream != b.meta.stream || source != b.meta.source)
    ensures Handle(cfg, s, p, source, now)
         == (s, if HeaderError(p) == Ok then InvalidParameter else HeaderError(p))
  {
    hide HeaderError, AllocSize, Receiver.Pending, Receiver.Listed, Place;
  }

  /** A packet that finds its slot free opens it anew under this order only if the order is the next one of its
      number, and not the one the slot had last. */
  lemma OnlyOpened(cfg: Settings, s: Receiver, p: Packet, source: Byte, now: int, order: int)
    requires s.TableOk() && order !in s.table
    requires var b := s.buckets[s.Index(p.frameNo)];
      !b.active && NextOrder(s, p.frameNo) == order ==> b.order == order
    ensures var t := Handle(cfg, s, p, source, now).0;
      order !in t.table && t.delivered == s.delivered && |t.buckets| == |s.buckets|
  {
    hide HeaderError, AllocSize, Open, OpenMeta, NextOrder, BucketError, Place, Receiver.Pending, Receiver.Listed,
         Receiver.BucketsOk, Assembly.Ok;
  }

  lemma OtherOrder(s: Receiver, no: Word16, order: int)
    requires s.TableOk() && order % 0x1_0000 != no
    ensures NextOrder(s, no) != order
  {
    OrderCongruent(s, no);
  }

  // ----- what was delivered under one order -----

  function Having(d: seq<Delivered>, order: int): seq<Delivered> {
    if d == [] then []
    else Having(d[..|d| - 1], order) + (if d[|d| - 1].order == order then [d[|d| - 1]] else [])
  }

  lemma {:induction false} HavingConcat(a: seq<Delivered>, b: seq<Delivered>, order: int)
    ensures Having(a + b, order) == Having(a, order) + Having(b, order)
  {
    if b == [] {
      assert a + b == a;
    } else {
      var n := |b| - 1;
      HavingConcat(a, b[..n], order);
      assert (a + b)[..|a + b| - 1] == a + b[..n];
      Associative(Having(a, order), Having(b[..n], order), if b[n].order == order then [b[n]] else []);
    }
  }

  lemma {:induction false} HavingFrames(s: Receiver, orders: seq<int>, order: int)
    requires s.TableOk() && StrictlyAscending(orders) && forall o <- orders :: o in s.table
    ensures order in orders ==> order in s.table && s.Pending(order)
    ensures Having(Frames(s, orders), order)
         == if order in orders then [DeliveredFrame(s.buckets[s.table[order]])] else []
  {
    if orders != [] {
      var first := Frames(s, orders)[0];
      FramesAt(s, orders, 0);
      HavingFrames(s, orders[1..], order);
      hide DeliveredFrame, Receiver.Listed;
      assert Frames(s, orders) == [first] + Frames(s, orders[1..]);
      HavingConcat([first], Frames(s, orders[1..]), order);
      assert [first][..0] == [];
      assert Having([first], order) == if first.order == order then [first] else [];
    }
  }

  // ----- one step -----

  /** A fragment of the job, a packet of another superframe or another sender, or a sweep. */
  datatype JobEvent =
    | Own(k: nat, now: int)
    | Other(p: Packet, source: Byte, now: int)
    | SweepAt(now: int, delay: int -> int)

  function Next(cfg: Settings, s: Receiver, job: Job, source: Byte, e: JobEvent): (t: Receiver)
    requires s.TableOk() && Good(job) && (e.Own? ==> e.k <= job.Of())
    ensures t.TableOk()
  {
    match e
    case Own(k, now) =>
      HandleKeepsTable(cfg, s, job.Fragment(k), source, now);
      Handle(cfg, s, job.Fragment(k), source, now).0
    case Other(p, src, now) => HandleKeepsTable(cfg, s, p, src, now); Handle(cfg, s, p, src, now).0
    case SweepAt(now, delay) => Sweep(cfg, s, now, delay)
  }

  /** The bucket is collecting, or its frame has been delivered and no bucket is open under its order. */
  datatype Phase = Collecting(got: set<nat>) | Done

  ghost predicate InPhase(s: Receiver, job: Job, source: Byte, order: int, ph: Phase)
    requires s.TableOk()
  {
    var b := s.buckets[s.Index(job.frameNo)];
    match ph
    case Collecting(got) => Collects(b, job, source, order) && b.asm.received == got
    case Done => order !in s.table && order % 0x1_0000 == job.frameNo
  }

  predicate Full(job: Job, got: set<nat>) { got == Upto(job.Of() + 1) }

  function NextPhase(job: Job, e: JobEvent, ph: Phase): Phase {
    match ph
    case Done => Done
    case Collecting(got) =>
      if e.Own? then Collecting(got + {e.k})
      else if e.SweepAt? && Full(job, got) then Done else ph
  }

  /** A fragment that finds its slot free does not open it under this order again. */
  predicate NotAgain(s: Receiver, no: Word16, order: int)
    requires s.Sized()
  {
    !s.buckets[s.Index(no)].active && NextOrder(s, no) == order ==> s.buckets[s.Index(no)].order == order
  }

  /** A packet of another superframe; or of another stream or source under the same number, as long as the job's
      bucket is open; or, after that, one that does not open the job's order again. */
  predicate Bystander(s: Receiver, job: Job, source: Byte, order: int, p: Packet, src: Byte)
    requires s.Sized()
  {
    var b := s.buckets[s.Index(job.frameNo)];
    p.frameNo == job.frameNo ==>
      if b.active && b.order == order then p.stream != job.stream || src != source
      else NotAgain(s, job.frameNo, order)
  }

  lemma BystanderLeaves(cfg: Settings, s: Receiver, job: Job, source: Byte, order: int, p: Packet, src: Byte, now: int)
    requires s.TableOk() && Collects(s.buckets[s.Index(job.frameNo)], job, source, order)
    requires Bystander(s, job, source, order, p, src)
    ensures var t := Handle(cfg, s, p, src, now).0;
      && t.delivered == s.delivered && |t.buckets| == |s.buckets|
      && t.buckets[s.Index(job.frameNo)] == s.buckets[s.Index(job.frameNo)]
  {
    hide Handle, Placed, Assembly.Ok, Receiver.BucketsOk, Receiver.Pending, Receiver.Listed;
    if p.frameNo == job.frameNo { ForeignRejected(cfg, s, p, src, now); }
    else { OtherLeaves(cfg, s, p, src, now, job.frameNo); }
  }

  lemma BystanderOver(cfg: Settings, s: Receiver, job: Job, source: Byte, order: int, p: Packet, src: Byte, now: int)
    requires s.TableOk() && order !in s.table && order % 0x1_0000 == job.frameNo
    requires Bystander(s, job, source, order, p, src)
    ensures var t := Handle(cfg, s, p, src, now).0;
      order !in t.table && t.delivered == s.delivered && |t.buckets| == |s.buckets|
  {
    hide Handle, NextOrder, Receiver.BucketsOk;
    if p.frameNo != job.frameNo { OtherOrder(s, p.frameNo, order); }
    else if s.buckets[s.Index(job.frameNo)].active { assert s.Listed(s.Index(job.frameNo)); }
    OnlyOpened(cfg, s, p, src, now, order);
  }

  /** No timeout while fragments are missing, other packets are bystanders, and a duplicate that comes after
      delivery either does not unwrap to the order of its frame or finds it in its slot. */
  predicate Allowed(cfg: Settings, s: Receiver, job: Job, source: Byte, order: int, e: JobEvent, ph: Phase)
    requires s.TableOk()
  {
    match e
    case Own(k, _) => k <= job.Of() && (ph.Done? ==> NotAgain(s, job.frameNo, order))
    case Other(p, src, _) => Bystander(s, job, source, order, p, src)
    case SweepAt(now, _) =>
      ph.Collecting? && !Full(job, ph.got) ==> !Due(cfg, s.buckets[s.Index(job.frameNo)], now)
  }

  lemma CompleteFrame(b: Bucket, job: Job, source: Byte, order: int)
    requires job.Valid() && Collects(b, job, source, order) && Full(job, b.asm.received)
    ensures b.asm.Complete() && DeliveredFrame(b) == Expected(job, source, order)
  {
    CompleteMeansAll(b.asm);
    CompleteIsData(b.asm, job);
    hide Placed, Upto;
    assert job.Of() in b.asm.received;
  }

  lemma IncompleteFrame(b: Bucket, job: Job, source: Byte, order: int)
    requires job.Valid() && Collects(b, job, source, order) && !Full(job, b.asm.received)
    ensures !b.asm.Complete()
  {
    CompleteMeansAll(b.asm);
  }

  /** What a sweep delivers under the order of bucket `i`: its frame if it is due, else nothing. */
  lemma SweepUnder(cfg: Settings, s: Receiver, now: int, delay: int -> int, i: nat, order: int)
    requires s.TableOk() && i < |s.buckets| && s.buckets[i].order == order
    requires order % |s.buckets| == i
    ensures s.buckets[i].active ==> s.buckets[i].asm.Ok()
    ensures Having(Sweep(cfg, s, now, delay).delivered, order) == Having(s.delivered, order)
         + if s.buckets[i].active && Due(cfg, s.buckets[i], now) then [DeliveredFrame(s.buckets[i])] else []
  {
    var batch := Batch(cfg, s, now);
    if s.buckets[i].active { assert s.Listed(i); } else { NotPending(s, i); }
    assert order in batch <==> s.buckets[i].active && Due(cfg, s.buckets[i], now);
    hide Sweep, Batch, Due, Frames, DeliveredFrame, Having, Assembly.Ok, Receiver.Listed;
    SweepDelivers(cfg, s, now, delay);
    HavingFrames(s, batch, order);
    HavingConcat(s.delivered, Frames(s, batch), order);
  }

  /** A sweep delivers nothing under an order that no bucket is open under. */
  lemma SweepOver(cfg: Settings, s: Receiver, now: int, delay: int -> int, order: int)
    requires s.TableOk() && order !in s.table
    ensures var t := Sweep(cfg, s, now, delay);
      order !in t.table && Having(t.delivered, order) == Having(s.delivered, order)
  {
    hide Sweep, Batch, Due, Frames, DeliveredFrame, Having, Assembly.Ok, Receiver.BucketsOk, Receiver.Pending,
         Receiver.Listed;
    var batch := Batch(cfg, s, now);
    SweepDelivers(cfg, s, now, delay);
    HavingFrames(s, batch, order);
    HavingConcat(s.delivered, Frames(s, batch), order);
  }

  lemma SweepStep(cfg: Settings, s: Receiver, job: Job, source: Byte, order: int, ph: Phase, now: int,
                  delay: int -> int)
    requires s.TableOk() && Good(job) && InPhase(s, job, source, order, ph)
    requires Allowed(cfg, s, job, source, order, SweepAt(now, delay), ph)
    ensures var t := Sweep(cfg, s, now, delay);
      && InPhase(t, job, source, order, NextPhase(job, SweepAt(now, delay), ph)) && |t.buckets| == |s.buckets|
      && Having(t.delivered, order) == Having(s.delivered, order)
           + if ph.Collecting? && Full(job, ph.got) then [Expected(job, source, order)] else []
  {
    hide Sweep, DeliveredFrame, Having, Collects, Full, Due, Expected, Receiver.BucketsOk, Receiver.Pending,
         Receiver.Listed, Good;
    TableIsSized(s);
    SweepBucket(cfg, s, now, delay, s.Index(job.frameNo));
    if ph.Done? { SweepOver(cfg, s, now, delay, order); }
    else { SweepCollecting(cfg, s, job, source, order, ph.got, now, delay); }
  }

  lemma SweepCollecting(cfg: Settings, s: Receiver, job: Job, source: Byte, order: int, got: set<nat>, now: int,
                        delay: int -> int)
    requires s.TableOk() && Good(job)
    requires var b := s.buckets[s.Index(job.frameNo)];
      Collects(b, job, source, order) && b.asm.received == got && (!Full(job, got) ==> !Due(cfg, b, now))
    ensures var t, i := Sweep(cfg, s, now, delay), s.Index(job.frameNo);
      && |t.buckets| == |s.buckets| && order % 0x1_0000 == job.frameNo
      && (if Full(job, got) then order !in t.table
          else Collects(t.buckets[i], job, source, order) && t.buckets[i].asm.received == got)
      && Having(t.delivered, order) == Having(s.delivered, order)
           + if Full(job, got) then [Expected(job, source, order)] else []
  {
    var i, t := s.Index(job.frameNo), Sweep(cfg, s, now, delay);
    var b := s.buckets[i];
    assert s.Listed(i);
    ModThroughRing(order, |s.buckets|);
    hide Receiver.TableOk, Upto, Sweep, DeliveredFrame, Having, Placed, Assembly.Ok, Full;
    if Full(job, got) { CompleteFrame(b, job, source, order); }
    SweepBucket(cfg, s, now, delay, i);
    SweepUnder(cfg, s, now, delay, i, order);
    if Full(job, got) { NotPending(t, i); }
  }

  lemma NextStep(cfg: Settings, s: Receiver, job: Job, source: Byte, order: int, e: JobEvent, ph: Phase)
    requires s.TableOk() && Good(job) && InPhase(s, job, source, order, ph)
    requires Allowed(cfg, s, job, source, order, e, ph)
    ensures var t := Next(cfg, s, job, source, e);
      && InPhase(t, job, source, order, NextPhase(job, e, ph)) && |t.buckets| == |s.buckets|
      && Having(t.delivered, order) == Having(s.delivered, order)
           + if e.SweepAt? && ph.Collecting? && Full(job, ph.got) then [Expected(job, source, order)] else []
  {
    hide Having, Full, Placed, Assembly.Ok, Handle, Sweep, NextOrder, Expected, Receiver.BucketsOk, Receiver.Pending,
         Receiver.Listed;
    match e {
      case Own(k, now) =>
        HandleKeepsTable(cfg, s, job.Fragment(k), source, now);
        if ph.Collecting? { OwnAccepted(cfg, s, job, k, source, order, now); }
        else { OnlyOpened(cfg, s, job.Fragment(k), source, now, order); }
      case Other(p, src, now) =>
        HandleKeepsTable(cfg, s, p, src, now);
        if ph.Collecting? { BystanderLeaves(cfg, s, job, source, order, p, src, now); }
        else { BystanderOver(cfg, s, job, source, order, p, src, now); }
      case SweepAt(now, delay) =>
        SweepStep(cfg, s, job, source, order, ph, now, delay);
    }
  }

  /** After delivery a duplicate is too old: it neither opens a bucket nor reaches the user. */
  lemma LateDuplicate(cfg: Settings, s: Receiver, job: Job, k: nat, source: Byte, now: int)
    requires s.TableOk() && Good(job) && k <= job.Of()
    requires !s.buckets[s.Index(job.frameNo)].active
    requires NextOrder(s, job.frameNo) == s.buckets[s.Index(job.frameNo)].order
    ensures var (t, r) := Handle(cfg, s, job.Fragment(k), source, now);
      r == FragmentTooOld && t.delivered == s.delivered && t.buckets == s.buckets
  {
    FragmentHeaderOk(job, k);
    assert job.Fragment(k).frameNo == job.frameNo;
    hide HeaderError, AllocSize;
  }

  // ----- whole arrivals -----

  function Feed(cfg: Settings, s: Receiver, job: Job, source: Byte, events: seq<JobEvent>): (t: Receiver)
    requires s.TableOk() && Good(job) && forall e <- events :: e.Own? ==> e.k <= job.Of()
    ensures t.TableOk()
    decreases |events|
  {
    if events == [] then s else Feed(cfg, Next(cfg, s, job, source, events[0]), job, source, events[1..])
  }

  predicate AllowedRun(cfg: Settings, s: Receiver, job: Job, source: Byte, order: int, events: seq<JobEvent>, ph: Phase)
    requires s.TableOk() && Good(job)
    decreases |events|
  {
    events == [] ||
    (&& Allowed(cfg, s, job, source, order, events[0], ph)
     && AllowedRun(cfg, Next(cfg, s, job, source, events[0]), job, source, order, events[1..],
                   NextPhase(job, events[0], ph)))
  }

  function LastPhase(job: Job, events: seq<JobEvent>, ph: Phase): Phase {
    if events == [] then ph else LastPhase(job, events[1..], NextPhase(job, events[0], ph))
  }

  lemma {:induction false} DoneStays(job: Job, events: seq<JobEvent>)
    ensures LastPhase(job, events, Done) == Done
  {
    if events != [] { DoneStays(job, events[1..]); }
  }

  /** Over any allowed arrival the frame is delivered once, unbroken and as sent, if the phase ends in
      Done, and not at all before. */
  lemma {:induction false} FeedDelivers(cfg: Settings, s: Receiver, job: Job, source: Byte, order: int,
                                        events: seq<JobEvent>, ph: Phase)
    requires s.TableOk() && Good(job) && InPhase(s, job, source, order, ph)
    requires AllowedRun(cfg, s, job, source, order, events, ph)
    ensures forall e <- events :: e.Own? ==> e.k <= job.Of()
    ensures Having(Feed(cfg, s, job, source, events).delivered, order) == Having(s.delivered, order)
         + if ph.Collecting? && LastPhase(job, events, ph).Done? then [Expected(job, source, order)] else []
    ensures InPhase(Feed(cfg, s, job, source, events), job, source, order, LastPhase(job, events, ph))
    decreases |events|
  {
    hide Having, Collects, Next, Receiver.Pending, Receiver.Listed, Expected;
    if events != [] {
      NextStep(cfg, s, job, source, order, events[0], ph);
      DoneStays(job, events[1..]);
      FeedDelivers(cfg, Next(cfg, s, job, source, events[0]), job, source, order, events[1..],
                   NextPhase(job, events[0], ph));
    }
  }

  /** The fragment numbers that arrive. */
  function FragmentsIn(events: seq<JobEvent>): set<nat> {
    if events == [] then {} else (if events[0].Own? then {events[0].k} else {}) + FragmentsIn(events[1..])
  }

  lemma {:induction false} AllGatheredDone(job: Job, events: seq<JobEvent>, got: set<nat>, last: JobEvent)
    requires last.SweepAt? && Full(job, got + FragmentsIn(events))
    ensures LastPhase(job, events + [last], Collecting(got)) == Done
  {
    hide Full;
    if events == [] {
      assert got + {} == got;
    } else {
      var e := events[0];
      assert (events + [last])[1..] == events[1..] + [last];
      if NextPhase(job, e, Collecting(got)).Done? {
        DoneStays(job, events[1..] + [last]);
      } else {
        var more := if e.Own? then got + {e.k} else got;
        assert more + FragmentsIn(events[1..]) == got + FragmentsIn(events);
        AllGatheredDone(job, events[1..], more, last);
      }
    }
  }

  /** Every fragment of a good job arrives at least once, in any order, duplicated at will, mixed with
      packets of other superframes and with sweeps; the bucket is free when the first one arrives and no
      timeout strikes before the last one. After a final sweep exactly one frame was delivered under the
      job's number: unbroken, with the original bytes and metadata. */
  lemma EndToEnd(cfg: Settings, s: Receiver, job: Job, source: Byte, first: nat, now: int,
                 events: seq<JobEvent>, last: JobEvent)
    requires s.TableOk() && Good(job) && first <= job.Of() && OpensAt(job, first) && last.SweepAt?
    requires !s.buckets[s.Index(job.frameNo)].active
    requires NextOrder(s, job.frameNo) != s.buckets[s.Index(job.frameNo)].order
    requires AllowedRun(cfg, Next(cfg, s, job, source, Own(first, now)), job, source, NextOrder(s, job.frameNo),
                        events + [last], Collecting({first}))
    requires Full(job, {first} + FragmentsIn(events))
    ensures forall e <- events :: e.Own? ==> e.k <= job.Of()
    ensures var order := NextOrder(s, job.frameNo);
      Having(Feed(cfg, s, job, source, [Own(first, now)] + events + [last]).delivered, order)
        == Having(s.delivered, order) + [Expected(job, source, order)]
  {
    var order, t := NextOrder(s, job.frameNo), Next(cfg, s, job, source, Own(first, now));
    hide Full, Having, Collects, NextOrder, Receiver.Pending, Receiver.Listed, Receiver.BucketsOk, Expected, Handle;
    OwnOpens(cfg, s, job, first, source, now);
    hide Next, AllowedRun, LastPhase, Feed;
    FeedDelivers(cfg, t, job, source, order, events + [last], Collecting({first}));
    AllGatheredDone(job, events, {first}, last);
    assert forall e <- events :: e in events + [last];
    FeedFirst(cfg, s, job, source, Own(first, now), events, last);
  }

  lemma FeedFirst(cfg: Settings, s: Receiver, job: Job, source: Byte, e: JobEvent, events: seq<JobEvent>,
                  last: JobEvent)
    requires s.TableOk() && Good(job) && e.Own? && e.k <= job.Of() && last.SweepAt?
    requires forall x <- events :: x.Own? ==> x.k <= job.Of()
    ensures Feed(cfg, s, job, source, [e] + events + [last])
         == Feed(cfg, Next(cfg, s, job, source, e), job, source, events + [last])
  {
    hide Next, Good, Receiver.TableOk;
    assert ([e] + events + [last])[1..] == events + [last];
  }

  // ----- traffic of this job alone -----

  /** Sweeps come before the deadline and the head-of-line limit counted from the first arrival. */
  predicate Timely(cfg: Settings, start: int, e: JobEvent) {
    && !e.Other?
    && (e.SweepAt? ==> e.now < start + cfg.TimeoutUs()
                       && (cfg.holTimeoutMs > 0 ==> e.now - start < cfg.holTimeoutMs * 1000))
  }

  /** The number that last opened its slot is still the last one unwrapped. */
  predicate LastOpened(s: Receiver, no: Word16, order: int) {
    s.Sized() && !s.firstFrame && s.oldNo == no && s.recalc == order && s.buckets[s.Index(no)].order == order
  }

  predicate StartedAt(cfg: Settings, b: Bucket, start: int) {
    b.timing.timeoutUs == start + cfg.TimeoutUs() && b.timing.firstArrivalUs == start
  }

  lemma TimelyStep(cfg: Settings, s: Receiver, job: Job, source: Byte, order: int, start: int, e: JobEvent, ph: Phase)
    requires s.TableOk() && Good(job) && InPhase(s, job, source, order, ph)
    requires LastOpened(s, job.frameNo, order) && Timely(cfg, start, e) && (e.Own? ==> e.k <= job.Of())
    requires ph.Collecting? ==> StartedAt(cfg, s.buckets[s.Index(job.frameNo)], start)
    ensures Allowed(cfg, s, job, source, order, e, ph)
    ensures var t := Next(cfg, s, job, source, e);
      && InPhase(t, job, source, order, NextPhase(job, e, ph)) && |t.buckets| == |s.buckets|
      && LastOpened(t, job.frameNo, order)
      && (NextPhase(job, e, ph).Collecting? ==> StartedAt(cfg, t.buckets[t.Index(job.frameNo)], start))
  {
    var i := s.Index(job.frameNo);
    hide Having, Full, Placed, Sweep, Receiver.Pending, Receiver.Listed, Expected, Handle, Assembly.Ok;
    if ph.Collecting? && !Full(job, ph.got) { IncompleteFrame(s.buckets[i], job, source, order); }
    NextStep(cfg, s, job, source, order, e, ph);
    match e {
      case Own(k, now) =>
        OwnSequence(cfg, s, job, k, source, order, now);
        if ph.Collecting? { OwnAccepted(cfg, s, job, k, source, order, now); }
      case Other(_, _, _) =>
      case SweepAt(now, delay) =>
        SweepLast(cfg, s, job.frameNo, order, now, delay);
        SweepBucket(cfg, s, now, delay, i);
    }
  }

  lemma OwnSequence(cfg: Settings, s: Receiver, job: Job, k: nat, source: Byte, order: int, now: int)
    requires s.TableOk() && Good(job) && k <= job.Of() && LastOpened(s, job.frameNo, order)
    ensures var t := Handle(cfg, s, job.Fragment(k), source, now).0; LastOpened(t, job.frameNo, order)
  {
    assert job.Fragment(k).frameNo == job.frameNo;
    HandleKeepsTable(cfg, s, job.Fragment(k), source, now);
    LastUnwraps(s, job.frameNo, order);
    hide HeaderError, AllocSize, OpenBucket, BucketError, Place, NextOrder, Receiver.Listed, Receiver.Pending,
         Receiver.BucketsOk;
  }

  lemma SweepLast(cfg: Settings, s: Receiver, no: Word16, order: int, now: int, delay: int -> int)
    requires s.TableOk() && LastOpened(s, no, order)
    ensures LastOpened(Sweep(cfg, s, now, delay), no, order)
  {
    hide Sweep, Due, Receiver.BucketsOk, Receiver.Pending, Receiver.Listed;
    SweepSequence(cfg, s, now, delay);
    SweepBucket(cfg, s, now, delay, s.Index(no));
  }

  lemma LastUnwraps(s: Receiver, no: Word16, order: int)
    requires LastOpened(s, no, order)
    ensures NextOrder(s, no) == order && NotAgain(s, no, order)
  {
    DeltaIs(no, no);
  }

  lemma {:induction false} TimelyAllowed(cfg: Settings, s: Receiver, job: Job, source: Byte, order: int, start: int,
                                         events: seq<JobEvent>, ph: Phase)
    requires s.TableOk() && Good(job) && InPhase(s, job, source, order, ph)
    requires LastOpened(s, job.frameNo, order)
    requires forall e <- events :: Timely(cfg, start, e) && (e.Own? ==> e.k <= job.Of())
    requires ph.Collecting? ==> StartedAt(cfg, s.buckets[s.Index(job.frameNo)], start)
    ensures AllowedRun(cfg, s, job, source, order, events, ph)
    decreases |events|
  {
    hide Timely, StartedAt, LastOpened, InPhase, Next, NextPhase, Receiver.Pending, Receiver.Listed, Good, Allowed;
    if events != [] {
      TimelyStep(cfg, s, job, source, order, start, events[0], ph);
      TimelyAllowed(cfg, Next(cfg, s, job, source, events[0]), job, source, order, start, events[1..],
                    NextPhase(job, events[0], ph));
    }
  }

  /** End to end without other traffic: nothing is assumed of the run beyond the times of the sweeps. */
  lemma EndToEndAlone(cfg: Settings, s: Receiver, job: Job, source: Byte, first: nat, now: int,
                      events: seq<JobEvent>, last: JobEvent)
    requires s.TableOk() && Good(job) && first <= job.Of() && OpensAt(job, first)
    requires last.SweepAt? && Timely(cfg, now, last)
    requires !s.buckets[s.Index(job.frameNo)].active
    requires NextOrder(s, job.frameNo) != s.buckets[s.Index(job.frameNo)].order
    requires forall e <- events :: Timely(cfg, now, e) && (e.Own? ==> e.k <= job.Of())
    requires Full(job, {first} + FragmentsIn(events))
    ensures var order := NextOrder(s, job.frameNo);
      Having(Feed(cfg, s, job, source, [Own(first, now)] + events + [last]).delivered, order)
        == Having(s.delivered, order) + [Expected(job, source, order)]
  {
    var order, t := NextOrder(s, job.frameNo), Next(cfg, s, job, source, Own(first, now));
    OpenedNow(cfg, s, job, first, source, now);
    hide Full, Having, Collects, NextOrder, Receiver.Pending, Receiver.Listed, Receiver.BucketsOk, Expected, Handle,
         Timely, StartedAt, LastOpened;
    OwnOpens(cfg, s, job, first, source, now);
    hide Next, AllowedRun, Feed;
    TimelyAllowed(cfg, t, job, source, order, now, events + [last], Collecting({first}));
    EndToEnd(cfg, s, job, source, first, now, events, last);
  }

  lemma OpenedNow(cfg: Settings, s: Receiver, job: Job, k: nat, source: Byte, now: int)
    requires s.TableOk() && Good(job) && k <= job.Of() && OpensAt(job, k)
    requires !s.buckets[s.Index(job.frameNo)].active
    requires NextOrder(s, job.frameNo) != s.buckets[s.Index(job.frameNo)].order
    ensures var t := Handle(cfg, s, job.Fragment(k), source, now).0;
      LastOpened(t, job.frameNo, NextOrder(s, job.frameNo)) && |t.buckets| == |s.buckets|
      && StartedAt(cfg, t.buckets[s.Index(job.frameNo)], now)
  {
    FragmentHeaderOk(job, k);
    assert job.Fragment(k).frameNo == job.frameNo;
    hide AllocSize, Open, HeaderError, NextOrder, Receiver.Pending, Receiver.Listed;
  }
}
