/** From one call of `send` to the frame at the other end, packet by packet as bytes: with retransmits in
    front of bundles, other traffic, any order and any repetition. */
module Transmission {
  import opened Wire
  import opened Fragmenter
  import opened FrameMemory
  import opened Placement
  import opened NackRanges
  import opened Results
  import opened Retention
  import opened RetentionRuns
  import opened SenderSpec
  import opened Retransmits
  import opened Loads
  import opened ReceiverSpec
  import opened ReceiverRuns
  import opened EndToEnd
  import opened Bundles
  import opened BundleTraffic
  import opened FrameOrder
  import opened Unrolling

  // ----- the bucket of one job -----

  /** The phase of this job's bucket, and when it was opened. */
  ghost predicate Follows(cfg: Settings, s: Receiver, job: Job, source: Byte, order: int, start: int, ph: Phase) {
    && s.TableOk() && Good(job) && InPhase(s, job, source, order, ph)
    && (ph.Collecting? ==> StartedAt(cfg, s.buckets[s.Index(job.frameNo)], start))
  }

  /** After delivery a fragment of the job does not open its order again. */
  predicate StaysDone(s: Receiver, job: Job, order: int, ph: Phase)
    requires s.Sized()
  {
    ph.Done? ==> NotAgain(s, job.frameNo, order)
  }

  function Gains(ph: Phase, lo: nat, hi: nat): Phase {
    match ph case Done => Done case Collecting(got) => Collecting(got + (Upto(hi) - Upto(lo)))
  }

  lemma NoGain(ph: Phase, lo: nat)
    ensures Gains(ph, lo, lo) == ph
  {
    assert ph.Collecting? ==> ph.got + (Upto(lo) - Upto(lo)) == ph.got;
  }

  lemma SpanUnion(ph: Phase, lo: nat, hi: nat)
    requires lo < hi
    ensures Gains(Gains(ph, lo, lo + 1), lo + 1, hi) == Gains(ph, lo, hi)
    ensures ph.Done? ==> Gains(ph, lo, lo + 1) == Gains(ph, lo, hi)
    ensures ph.Collecting? ==> Gains(ph, lo, lo + 1).Collecting?
  {
    if ph.Collecting? {
      assert ph.got + (Upto(lo + 1) - Upto(lo)) + (Upto(hi) - Upto(lo + 1)) == ph.got + (Upto(hi) - Upto(lo));
    }
  }

  lemma FollowsValid(cfg: Settings, s: Receiver, job: Job, source: Byte, order: int, start: int, ph: Phase)
    requires Follows(cfg, s, job, source, order, start, ph)
    ensures s.TableOk() && job.Valid() && Good(job)
  {
  }

  lemma OneFollows(cfg: Settings, s: Receiver, job: Job, source: Byte, order: int, start: int, ph: Phase, k: nat,
                   now: int)
    requires Follows(cfg, s, job, source, order, start, ph) && s.TableOk() && StaysDone(s, job, order, ph)
    requires k <= job.Of()
    ensures var (t, r) := Handle(cfg, s, job.Fragment(k), source, now);
      && t.TableOk() && StaysDone(t, job, order, ph) && t.delivered == s.delivered
      && Follows(cfg, t, job, source, order, start, Gains(ph, k, k + 1))
      && (ph.Collecting? ==> r == Ok || r == DuplicateFragment)
  {
    hide Collects, Handle, Receiver.Pending, Receiver.Listed, Receiver.BucketsOk, Expected, Good, StartedAt, NextOrder,
         Job.Valid, NotAgain;
    FollowsValid(cfg, s, job, source, order, start, ph);
    HandleKeepsTable(cfg, s, job.Fragment(k), source, now);
    if ph.Collecting? {
      OwnAccepted(cfg, s, job, k, source, order, now);
      SameStart(cfg, s, Handle(cfg, s, job.Fragment(k), source, now).0, job, start);
      assert Upto(k + 1) - Upto(k) == {k};
    } else {
      OwnNotAgain(cfg, s, job, k, source, order, now);
    }
  }

  lemma OwnNotAgain(cfg: Settings, s: Receiver, job: Job, k: nat, source: Byte, order: int, now: int)
    requires s.TableOk() && job.Valid() && k <= job.Of() && order !in s.table && NotAgain(s, job.frameNo, order)
    ensures var t := Handle(cfg, s, job.Fragment(k), source, now).0;
      t.TableOk() && NotAgain(t, job.frameNo, order) && order !in t.table && t.delivered == s.delivered
  {
    hide Handle, NextOrder, Job.Valid, Receiver.BucketsOk, Receiver.Pending, Receiver.Listed;
    FragmentFrame(job, k);
    HandleKeepsTable(cfg, s, job.Fragment(k), source, now);
    OnlyOpened(cfg, s, job.Fragment(k), source, now, order);
    KeepsNotAgain(cfg, s, job.Fragment(k), source, order, now);
  }

  lemma FragmentFrame(job: Job, k: nat)
    requires job.Valid() && k <= job.Of()
    ensures job.Fragment(k).frameNo == job.frameNo
  {
  }

  /** Handling a fragment of this number changes neither what the number unwraps to nor, if it opens nothing,
      its slot. */
  lemma KeepsNotAgain(cfg: Settings, s: Receiver, p: Packet, source: Byte, order: int, now: int)
    requires s.TableOk() && NotAgain(s, p.frameNo, order)
    ensures var t := Handle(cfg, s, p, source, now).0; t.TableOk() && NotAgain(t, p.frameNo, order)
  {
    hide HeaderError, AllocSize, Open, OpenMeta, NextOrder, BucketError, Place, Receiver.Pending, Receiver.Listed,
         Receiver.BucketsOk, Assembly.Ok;
    HandleKeepsTable(cfg, s, p, source, now);
    if HeaderError(p) == Ok && !s.buckets[s.Index(p.frameNo)].active {
      SameNumber(s, Handle(cfg, s, p, source, now).0, p.frameNo);
    }
  }

  lemma SameNumber(s: Receiver, t: Receiver, no: Word16)
    requires !t.firstFrame && t.oldNo == no && t.recalc == NextOrder(s, no)
    ensures NextOrder(t, no) == NextOrder(s, no)
  {
    DeltaIs(no, no);
  }

  lemma SameStart(cfg: Settings, s: Receiver, t: Receiver, job: Job, start: int)
    requires s.TableOk() && t.TableOk() && |s.buckets| == |t.buckets|
    requires StartedAt(cfg, s.buckets[s.Index(job.frameNo)], start)
    ensures t.buckets[t.Index(job.frameNo)].timing == s.buckets[s.Index(job.frameNo)].timing ==>
      StartedAt(cfg, t.buckets[t.Index(job.frameNo)], start)
  {
  }

  lemma MembersStep(cfg: Settings, s: Receiver, job: Job, source: Byte, lo: nat, hi: nat, now: int)
    requires s.TableOk() && job.Valid() && lo < hi <= job.Of() + 1
    ensures var (t, r) := Handle(cfg, s, job.Fragment(lo), source, now);
      && t.TableOk()
      && Members(cfg, s, Fragments(job, lo, hi), source, now)
           == if r != Ok && r != DuplicateFragment then (t, r)
             else Members(cfg, t, Fragments(job, lo + 1, hi), source, now)
  {
    HandleKeepsTable(cfg, s, job.Fragment(lo), source, now);
    var ps := Fragments(job, lo, hi);
    hide Handle, Receiver.TableOk, Job.Valid, Job.Fragment;
    assert ps[1..] == Fragments(job, lo + 1, hi);
  }

  lemma {:induction false} MembersFollow(cfg: Settings, s: Receiver, job: Job, source: Byte, order: int, start: int,
                                         ph: Phase, lo: nat, hi: nat, now: int)
    requires Follows(cfg, s, job, source, order, start, ph) && s.TableOk() && StaysDone(s, job, order, ph)
    requires lo <= hi <= job.Of() + 1
    ensures var t := Members(cfg, s, Fragments(job, lo, hi), source, now).0;
      Follows(cfg, t, job, source, order, start, Gains(ph, lo, hi)) && t.delivered == s.delivered
    decreases hi - lo
  {
    hide Handle, Gains, InPhase, NextOrder, StartedAt, Receiver.TableOk, Good, Job.Valid, Fragments, StaysDone;
    FollowsValid(cfg, s, job, source, order, start, ph);
    if lo == hi {
      NoGain(ph, lo);
    } else {
      OneFollows(cfg, s, job, source, order, start, ph, lo, now);
      MembersStep(cfg, s, job, source, lo, hi, now);
      SpanUnion(ph, lo, hi);
      var (t, r) := Handle(cfg, s, job.Fragment(lo), source, now);
      StaysGained(t, job, order, ph, lo);
      hide Follows, Members;
      if r == Ok || r == DuplicateFragment {
        MembersFollow(cfg, t, job, source, order, start, Gains(ph, lo, lo + 1), lo + 1, hi, now);
      }
    }
  }

  lemma StaysGained(s: Receiver, job: Job, order: int, ph: Phase, lo: nat)
    requires s.TableOk() && StaysDone(s, job, order, ph)
    ensures StaysDone(s, job, order, Gains(ph, lo, lo + 1))
  {
  }

  // ----- a packet with fragments of the job -----

  /** The receiver behind the retransmit in front of a bundle. */
  function AfterFront(cfg: Settings, s: Receiver, front: seq<seq<Byte>>, source: Byte, now: int): (t: Receiver)
    requires s.TableOk()
    ensures t.TableOk()
  {
    if front == [] || !Readable(front[0]) || !IsType1(front[0]) then s
    else
      HandleKeepsTable(cfg, s, Decode(front[0]), source, now);
      Handle(cfg, s, Decode(front[0]), source, now).0
  }

  /** The front ends the bundle: it is not a Type1 frame, or its result is neither OK nor DUPLICATE. */
  predicate Lost(cfg: Settings, s: Receiver, front: seq<seq<Byte>>, source: Byte, now: int)
    requires s.TableOk()
  {
    front != [] &&
    (!Readable(front[0]) || !IsType1(front[0]) ||
     var r := Handle(cfg, s, Decode(front[0]), source, now).1; r != Ok && r != DuplicateFragment)
  }

  /** A Type1 front belongs to another superframe. */
  predicate Elsewhere(job: Job, front: seq<seq<Byte>>) {
    front != [] && Readable(front[0]) && IsType1(front[0]) ==> Decode(front[0]).frameNo != job.frameNo
  }

  /** A bystander leaves the phase as it is. */
  lemma OtherFollows(cfg: Settings, s: Receiver, job: Job, source: Byte, order: int, start: int, ph: Phase, p: Packet,
                     src: Byte, now: int)
    requires Follows(cfg, s, job, source, order, start, ph) && s.TableOk()
    requires Bystander(s, job, source, order, p, src)
    ensures var t := Handle(cfg, s, p, src, now).0;
      t.TableOk() && Follows(cfg, t, job, source, order, start, ph) && t.delivered == s.delivered
  {
    hide Handle, Collects, Bystander, Receiver.BucketsOk, Receiver.Pending, Receiver.Listed, Good;
    HandleKeepsTable(cfg, s, p, src, now);
    if ph.Collecting? { BystanderLeaves(cfg, s, job, source, order, p, src, now); }
    else { BystanderOver(cfg, s, job, source, order, p, src, now); }
  }

  /** What such a packet does: its front, and then its fragments unless the front ended it. */
  lemma LoadDispatch(scfg: Config, cfg: Settings, s: Receiver, job: Job, bytes: seq<Byte>, l: Load, source: Byte,
                     now: int)
    requires scfg.Valid() && s.TableOk() && job.Valid() && l.Part? && Carries(scfg, job, bytes, l)
    ensures l.lo < l.hi <= job.Of() + 1
    ensures var t := AfterFront(cfg, s, l.front, source, now);
      Dispatch(cfg, s, bytes, source, now).0
        == if Lost(cfg, s, l.front, source, now) then t else Members(cfg, t, Fragments(job, l.lo, l.hi), source, now).0
  {
    hide Dispatch, Members, Fragments, Handle, Receiver.TableOk, Job.Valid, Wrapper, Wrappable, Encode, Decode;
    if l.front == [] && l.hi == l.lo + 1 && bytes == Frame(job, l.lo) {
      AloneDispatch(cfg, s, job, l.lo, source, now);
    } else if l.front == [] {
      hide Fits;
      BundleHandled(scfg, cfg, s, job, Pass([], [], l.lo, l.hi), source, now);
    } else {
      FrontFrame(scfg, job, l);
      hide Fits;
      if IsType1(l.front[0]) {
        BundleWithRetransmit(scfg, cfg, s, job, Pass([], l.front, l.lo, l.hi), source, now);
      } else {
        BundleRejected(scfg, cfg, s, job, Pass([], l.front, l.lo, l.hi), source, now);
      }
    }
  }

  lemma FrontFrame(scfg: Config, job: Job, l: Load)
    requires l.Part? && l.front != [] && Fits(scfg, job, Pass([], l.front, l.lo, l.hi))
    ensures l.front[0] != [] && (IsType1(l.front[0]) ==> Readable(l.front[0]))
  {
    assert l.front[0] in l.front;
  }

  lemma AloneDispatch(cfg: Settings, s: Receiver, job: Job, k: nat, source: Byte, now: int)
    requires s.TableOk() && job.Valid() && k <= job.Of()
    ensures Dispatch(cfg, s, Frame(job, k), source, now).0 == Members(cfg, s, Fragments(job, k, k + 1), source, now).0
  {
    FrameRefines(cfg, s, job.Fragment(k), source, now);
    HandleKeepsTable(cfg, s, job.Fragment(k), source, now);
    hide Dispatch, Handle, Receiver.TableOk, Job.Valid, Job.Fragment, Encode;
    assert Fragments(job, k, k + 1)[1..] == Fragments(job, k + 1, k + 1) == [];
    NoMembersLeft(cfg, Handle(cfg, s, job.Fragment(k), source, now).0, source, now);
  }

  lemma NoMembersLeft(cfg: Settings, s: Receiver, source: Byte, now: int)
    requires s.TableOk()
    ensures Members(cfg, s, [], source, now) == (s, Ok)
  {
  }

  lemma FrontFollows(cfg: Settings, s: Receiver, job: Job, source: Byte, order: int, start: int, ph: Phase,
                     front: seq<seq<Byte>>, now: int)
    requires Follows(cfg, s, job, source, order, start, ph) && Elsewhere(job, front)
    ensures var t := AfterFront(cfg, s, front, source, now);
      Follows(cfg, t, job, source, order, start, ph) && t.delivered == s.delivered
  {
    hide Handle, Follows, Receiver.TableOk, Decode;
    FollowsValid(cfg, s, job, source, order, start, ph);
    if front != [] && Readable(front[0]) && IsType1(front[0]) {
      OtherFollows(cfg, s, job, source, order, start, ph, Decode(front[0]), source, now);
    }
  }

  /** A packet adds its fragments, or nothing if its front ends it; after delivery it is ignored. */
  lemma LoadFollows(scfg: Config, cfg: Settings, s: Receiver, job: Job, source: Byte, order: int, start: int, ph: Phase,
                    bytes: seq<Byte>, l: Load, now: int)
    requires scfg.Valid() && Follows(cfg, s, job, source, order, start, ph)
    requires job.Valid() && s.TableOk() && l.Part? && Carries(scfg, job, bytes, l) && Elsewhere(job, l.front)
    requires StaysDone(AfterFront(cfg, s, l.front, source, now), job, order, ph)
    ensures var t, lost := Dispatch(cfg, s, bytes, source, now).0, Lost(cfg, s, l.front, source, now);
      && Follows(cfg, t, job, source, order, start, if lost then ph else Gains(ph, l.lo, l.hi))
         && t.delivered == s.delivered
  {
    hide Members, Fragments, Dispatch, Gains, Follows, Carries, AfterFront, Lost, StaysDone, Elsewhere,
         Receiver.TableOk, Job.Valid, Good;
    LoadDispatch(scfg, cfg, s, job, bytes, l, source, now);
    FrontFollows(cfg, s, job, source, order, start, ph, l.front, now);
    if !Lost(cfg, s, l.front, source, now) {
      MembersFollow(cfg, AfterFront(cfg, s, l.front, source, now), job, source, order, start, ph, l.lo, l.hi, now);
    }
  }

  // ----- the first packet -----

  /** The job's slot is free, and its last frame was another one. */
  ghost predicate Free(s: Receiver, job: Job) {
    && s.TableOk() && Good(job)
    && !s.buckets[s.Index(job.frameNo)].active
    && NextOrder(s, job.frameNo) != s.buckets[s.Index(job.frameNo)].order
  }

  /** A new receiver has every slot free. */
  lemma InitialFree(n: nat, job: Job)
    requires 0 < n && 0x1_0000 % n == 0 && Good(job)
    ensures Free(Initial(n), job) && NextOrder(Initial(n), job.frameNo) == job.frameNo
    ensures forall k | 0 <= k < n :: !Initial(n).buckets[k].active && Initial(n).buckets[k].order == INT64_MAX
  {
  }

  lemma FreeValid(s: Receiver, job: Job)
    requires Free(s, job)
    ensures s.TableOk() && Good(job) && job.Valid()
  {
  }

  lemma OpensOne(cfg: Settings, s: Receiver, job: Job, source: Byte, k: nat, now: int)
    requires Free(s, job) && k <= job.Of() && OpensAt(job, k)
    ensures var (t, r) := Handle(cfg, s, job.Fragment(k), source, now);
      && r == Ok && t.delivered == s.delivered && LastOpened(t, job.frameNo, NextOrder(s, job.frameNo))
      && Follows(cfg, t, job, source, NextOrder(s, job.frameNo), now, Gains(Collecting({}), k, k + 1))
  {
    hide Handle, Collects, LastOpened, StartedAt, NextOrder, Good, Receiver.TableOk, Free, Upto, Job.Valid,
         Job.Fragment;
    FreeValid(s, job);
    FreeSlot(s, job);
    TableIsSized(s);
    OwnOpens(cfg, s, job, k, source, now);
    OpenedNow(cfg, s, job, k, source, now);
    HandleKeepsTable(cfg, s, job.Fragment(k), source, now);
    TableIsSized(Handle(cfg, s, job.Fragment(k), source, now).0);
    OnlyOne(k);
  }

  lemma FreeSlot(s: Receiver, job: Job)
    requires Free(s, job)
    ensures s.TableOk() && !s.buckets[s.Index(job.frameNo)].active
    ensures NextOrder(s, job.frameNo) != s.buckets[s.Index(job.frameNo)].order
  {
  }

  lemma OnlyOne(k: nat)
    ensures {} + (Upto(k + 1) - Upto(k)) == {k}
  {
  }

  lemma OpensMembers(cfg: Settings, s: Receiver, job: Job, source: Byte, lo: nat, hi: nat, now: int)
    requires Free(s, job) && lo < hi <= job.Of() + 1 && OpensAt(job, lo)
    ensures s.TableOk()
    ensures var t := Members(cfg, s, Fragments(job, lo, hi), source, now).0;
      && t.delivered == s.delivered && LastOpened(t, job.frameNo, NextOrder(s, job.frameNo))
      && Follows(cfg, t, job, source, NextOrder(s, job.frameNo), now, Gains(Collecting({}), lo, hi))
  {
    hide Handle, Follows, Gains, NextOrder, Free, Good, Receiver.TableOk, Job.Valid, Members, Fragments, LastOpened;
    FreeValid(s, job);
    OpensOne(cfg, s, job, source, lo, now);
    MembersStep(cfg, s, job, source, lo, hi, now);
    SpanUnion(Collecting({}), lo, hi);
    var order, t := NextOrder(s, job.frameNo), Handle(cfg, s, job.Fragment(lo), source, now).0;
    MembersFollow(cfg, t, job, source, order, now, Gains(Collecting({}), lo, lo + 1), lo + 1, hi, now);
    MembersLast(cfg, t, job, source, order, lo + 1, hi, now);
  }

  /** The job's own fragments unwrap nothing new. */
  lemma {:induction false} MembersLast(cfg: Settings, s: Receiver, job: Job, source: Byte, order: int, lo: nat, hi: nat,
                                       now: int)
    requires s.TableOk() && Good(job) && job.Valid() && lo <= hi <= job.Of() + 1 && LastOpened(s, job.frameNo, order)
    ensures LastOpened(Members(cfg, s, Fragments(job, lo, hi), source, now).0, job.frameNo, order)
    decreases hi - lo
  {
    hide Handle, Receiver.TableOk, Good, Job.Valid, Fragments, Members, LastOpened;
    TableIsSized(s);
    if lo == hi {
      NoFragments(cfg, s, job, lo, source, now);
    } else {
      OwnSequence(cfg, s, job, lo, source, order, now);
      MembersStep(cfg, s, job, source, lo, hi, now);
      MembersLast(cfg, Handle(cfg, s, job.Fragment(lo), source, now).0, job, source, order, lo + 1, hi, now);
    }
  }

  lemma NoFragments(cfg: Settings, s: Receiver, job: Job, k: nat, source: Byte, now: int)
    requires s.TableOk() && job.Valid() && k <= job.Of() + 1
    ensures Members(cfg, s, Fragments(job, k, k), source, now).0 == s
  {
  }

  /** The first packet of the job opens its bucket, unless its front ends it. */
  lemma FirstLoad(scfg: Config, cfg: Settings, s: Receiver, job: Job, source: Byte, bytes: seq<Byte>, l: Load, now: int)
    requires scfg.Valid() && s.TableOk() && job.Valid() && l.Part? && Carries(scfg, job, bytes, l)
    requires Free(AfterFront(cfg, s, l.front, source, now), job) && Elsewhere(job, l.front) && OpensAt(job, l.lo)
    requires !Lost(cfg, s, l.front, source, now)
    ensures var t, order := Dispatch(cfg, s, bytes, source, now).0,
      NextOrder(AfterFront(cfg, s, l.front, source, now), job.frameNo);
      && t.delivered == s.delivered && LastOpened(t, job.frameNo, order)
      && Follows(cfg, t, job, source, order, now, Gains(Collecting({}), l.lo, l.hi))
  {
    hide Members, Fragments, Dispatch, Gains, Follows, Carries, AfterFront, Lost, Elsewhere, Receiver.TableOk,
         Job.Valid, Free, NextOrder, LastOpened;
    LoadDispatch(scfg, cfg, s, job, bytes, l, source, now);
    OpensMembers(cfg, AfterFront(cfg, s, l.front, source, now), job, source, l.lo, l.hi, now);
    FrontDelivers(cfg, s, job, l.front, source, now);
  }

  lemma FrontDelivers(cfg: Settings, s: Receiver, job: Job, front: seq<seq<Byte>>, source: Byte, now: int)
    requires s.TableOk()
    ensures AfterFront(cfg, s, front, source, now).delivered == s.delivered
  {
    if front != [] && Readable(front[0]) && IsType1(front[0]) {
      HandleDelivers(cfg, s, Decode(front[0]), source, now);
    }
    hide Handle, Decode, Receiver.TableOk;
  }

  // ----- sweeps and other traffic -----

  predicate Early(cfg: Settings, start: int, now: int) {
    now < start + cfg.TimeoutUs() && (cfg.holTimeoutMs > 0 ==> now - start < cfg.holTimeoutMs * 1000)
  }

  /** What a step from one phase to another adds under the job's order. */
  function Yield(job: Job, source: Byte, order: int, before: Phase, after: Phase): seq<Delivered> {
    if before.Collecting? && after.Done? then [Expected(job, source, order)] else []
  }

  lemma EarlyNotDue(cfg: Settings, s: Receiver, job: Job, source: Byte, order: int, start: int, ph: Phase, now: int,
                    delay: int -> int)
    requires Follows(cfg, s, job, source, order, start, ph) && Early(cfg, start, now)
    ensures s.TableOk() && Good(job) && Allowed(cfg, s, job, source, order, SweepAt(now, delay), ph)
  {
    hide Placed, Receiver.Pending, Receiver.Listed, Receiver.BucketsOk, Expected, Assembly.Ok;
    if ph.Collecting? && !Full(job, ph.got) { IncompleteFrame(s.buckets[s.Index(job.frameNo)], job, source, order); }
    hide Full;
  }

  lemma SweepFollows(cfg: Settings, s: Receiver, job: Job, source: Byte, order: int, start: int, ph: Phase,
                     now: int, delay: int -> int)
    requires Follows(cfg, s, job, source, order, start, ph) && Early(cfg, start, now)
    ensures s.TableOk()
    ensures var after, t := NextPhase(job, SweepAt(now, delay), ph), Sweep(cfg, s, now, delay);
      && Follows(cfg, t, job, source, order, start, after)
      && Having(t.delivered, order) == Having(s.delivered, order) + Yield(job, source, order, ph, after)
  {
    EarlyNotDue(cfg, s, job, source, order, start, ph, now, delay);
    hide Sweep, Having, Expected, Collects, Receiver.Pending, Receiver.Listed, Receiver.BucketsOk, Good, Full;
    SweepStep(cfg, s, job, source, order, ph, now, delay);
    SweepBucket(cfg, s, now, delay, s.Index(job.frameNo));
    assert !Due(cfg, s.buckets[s.Index(job.frameNo)], now) || NextPhase(job, SweepAt(now, delay), ph).Done?;
    hide Due;
  }

  /** Each of these packets is a bystander when it is handled. */
  predicate Bystanders(cfg: Settings, s: Receiver, job: Job, source: Byte, order: int, ps: seq<Packet>, src: Byte,
                       now: int)
    requires s.TableOk()
    decreases |ps|
  {
    ps == [] ||
    (HandleKeepsTable(cfg, s, ps[0], src, now);
     Bystander(s, job, source, order, ps[0], src)
     && Bystanders(cfg, Handle(cfg, s, ps[0], src, now).0, job, source, order, ps[1..], src, now))
  }

  /** Everything the packet makes the receiver handle belongs to other superframes or other senders. */
  predicate Stranger(cfg: Settings, s: Receiver, job: Job, source: Byte, order: int, data: seq<Byte>, src: Byte,
                     now: int)
    requires s.TableOk()
  {
    Bystanders(cfg, s, job, source, order, Handled(cfg, s, data, src, now), src, now)
  }

  lemma {:induction false} FoldFollows(cfg: Settings, s: Receiver, job: Job, source: Byte, order: int, start: int,
                                       ph: Phase, ps: seq<Packet>, src: Byte, now: int)
    requires Follows(cfg, s, job, source, order, start, ph) && s.TableOk()
    requires Bystanders(cfg, s, job, source, order, ps, src, now)
    ensures var t := Fold(cfg, s, ps, src, now);
      Follows(cfg, t, job, source, order, start, ph) && t.delivered == s.delivered
    decreases |ps|
  {
    hide Handle, Follows, Receiver.TableOk, Bystander;
    TableIsSized(s);
    if ps != [] {
      HandleKeepsTable(cfg, s, ps[0], src, now);
      OtherFollows(cfg, s, job, source, order, start, ph, ps[0], src, now);
      FoldFollows(cfg, Handle(cfg, s, ps[0], src, now).0, job, source, order, start, ph, ps[1..], src, now);
    }
  }

  lemma StrangerFollows(cfg: Settings, s: Receiver, job: Job, source: Byte, order: int, start: int, ph: Phase,
                        data: seq<Byte>, src: Byte, now: int)
    requires Follows(cfg, s, job, source, order, start, ph) && s.TableOk()
    requires Stranger(cfg, s, job, source, order, data, src, now)
    ensures var t := Dispatch(cfg, s, data, src, now).0;
      Follows(cfg, t, job, source, order, start, ph) && t.delivered == s.delivered
  {
    hide Dispatch, Handled, Fold, Follows, Receiver.TableOk, Bystanders;
    DispatchFolds(cfg, s, data, src, now);
    FoldFollows(cfg, s, job, source, order, start, ph, Handled(cfg, s, data, src, now), src, now);
  }

  // ----- one event -----

  /** The i-th packet of the send arrives, another packet arrives, or a sweep comes. */
  datatype Tag =
    | Brought(i: nat, now: int, delay: int -> int)
    | Strange(data: seq<Byte>, src: Byte, now: int, delay: int -> int)
    | Sweeping(now: int, delay: int -> int)

  function EventOf(sent: seq<Emission>, source: Byte, tag: Tag): ReceiverRuns.Event
    requires tag.Brought? ==> tag.i < |sent|
  {
    match tag
    case Brought(i, now, delay) => Arrive(sent[i].bytes, source, now, delay)
    case Strange(data, src, now, delay) => Arrive(data, src, now, delay)
    case Sweeping(now, delay) => Tick(now, delay)
  }

  /** The event comes before the deadlines if it sweeps. */
  predicate InTime(cfg: Settings, start: int, sent: seq<Emission>, source: Byte, tag: Tag) {
    (tag.Brought? ==> tag.i < |sent|) && (Sweeps(cfg, EventOf(sent, source, tag)) ==> Early(cfg, start, tag.now))
  }

  /** Sweeps come before the deadlines; what is not of this job belongs to other superframes or other senders; and a
      fragment that comes after delivery does not open the order of its frame again. */
  ghost predicate Permitted(cfg: Settings, s: Receiver, job: Job, source: Byte, order: int, start: int,
                            sent: seq<Emission>, loads: seq<Load>, tag: Tag)
    requires s.TableOk()
  {
    && InTime(cfg, start, sent, source, tag)
    && match tag
       case Strange(data, src, now, _) => Stranger(cfg, s, job, source, order, data, src, now)
       case Sweeping(_, _) => true
       case Brought(i, now, _) =>
         && i < |sent| == |loads|
         && match loads[i]
            case Foreign => Stranger(cfg, s, job, source, order, sent[i].bytes, source, now)
            case Part(_, _, front) =>
              && Elsewhere(job, front)
              && NotAgain(AfterFront(cfg, s, front, source, now), job.frameNo, order)
  }

  /** The fragments of the job that the event brings to the receiver: none if a front ends the bundle. */
  function Gained(cfg: Settings, s: Receiver, source: Byte, loads: seq<Load>, tag: Tag): set<nat>
    requires s.TableOk()
  {
    if tag.Brought? && tag.i < |loads| && loads[tag.i].Part? && !Lost(cfg, s, loads[tag.i].front, source, tag.now)
    then Upto(loads[tag.i].hi) - Upto(loads[tag.i].lo) else {}
  }

  /** The bucket has what it had and what was added, until its frame is delivered complete. */
  predicate Grows(job: Job, before: Phase, after: Phase, added: set<nat>) {
    match (before, after)
    case (Done, _) => after.Done?
    case (Collecting(got), Collecting(more)) => more == got + added
    case (Collecting(got), Done) => Upto(job.Of() + 1) <= got + added
  }

  lemma ArrivalFollows(scfg: Config, cfg: Settings, s: Receiver, job: Job, source: Byte, order: int, start: int,
                       ph: Phase, sent: seq<Emission>, loads: seq<Load>, tag: Tag) returns (mid: Phase)
    requires scfg.Valid() && job.Valid() && AllCarry(scfg, job, sent, loads)
    requires Follows(cfg, s, job, source, order, start, ph)
    requires s.TableOk() && Permitted(cfg, s, job, source, order, start, sent, loads, tag)
    ensures tag.Brought? ==> tag.i < |sent|
    ensures var t := Reached(cfg, s, EventOf(sent, source, tag));
      && Follows(cfg, t, job, source, order, start, mid) && t.delivered == s.delivered
      && (ph.Collecting? ==> mid.Collecting? && mid.got == ph.got + Gained(cfg, s, source, loads, tag))
      && (ph.Done? ==> mid.Done?)
  {
    hide Dispatch, Follows, Carries, AfterFront, Lost, Elsewhere, Stranger, Early, Receiver.TableOk, Job.Valid, Upto;
    mid := ph;
    match tag {
      case Sweeping(_, _) =>
      case Strange(data, src, now, _) => StrangerFollows(cfg, s, job, source, order, start, ph, data, src, now);
      case Brought(i, now, _) =>
        var l := loads[i];
        if l.Foreign? {
          StrangerFollows(cfg, s, job, source, order, start, ph, sent[i].bytes, source, now);
        } else {
          LoadFollows(scfg, cfg, s, job, source, order, start, ph, sent[i].bytes, l, now);
          if !Lost(cfg, s, l.front, source, now) { mid := Gains(ph, l.lo, l.hi); }
        }
    }
    assert ph.Collecting? ==> ph.got + {} == ph.got;
  }

  /** The state that the sweep of this event finds, if it sweeps. */
  function Reached(cfg: Settings, s: Receiver, e: ReceiverRuns.Event): (t: Receiver)
    requires s.TableOk()
    ensures t.TableOk()
  {
    FrameOrder.Swept(cfg, s, e)
  }

  lemma MaybeSweep(cfg: Settings, t: Receiver, job: Job, source: Byte, order: int, start: int, mid: Phase, sweeps: bool,
                   now: int, delay: int -> int) returns (after: Phase)
    requires Follows(cfg, t, job, source, order, start, mid) && t.TableOk() && (sweeps ==> Early(cfg, start, now))
    ensures var u := if sweeps then Sweep(cfg, t, now, delay) else t;
      && Follows(cfg, u, job, source, order, start, after) && Grows(job, mid, after, {})
      && Having(u.delivered, order) == Having(t.delivered, order) + Yield(job, source, order, mid, after)
    ensures t.TableOk() && (LastOpened(t, job.frameNo, order) ==>
      LastOpened(if sweeps then Sweep(cfg, t, now, delay) else t, job.frameNo, order))
  {
    hide Follows, Early, Receiver.TableOk, Sweep, Having, Expected, Upto, LastOpened;
    after := mid;
    assert mid.Collecting? ==> mid.got + {} == mid.got;
    if sweeps {
      SweepFollows(cfg, t, job, source, order, start, mid, now, delay);
      after := NextPhase(job, SweepAt(now, delay), mid);
      if LastOpened(t, job.frameNo, order) { SweepLast(cfg, t, job.frameNo, order, now, delay); }
    }
  }

  lemma GrowsJoin(job: Job, source: Byte, order: int, a: Phase, b: Phase, c: Phase, added: set<nat>)
    requires a.Collecting? ==> b.Collecting? && b.got == a.got + added
    requires (a.Done? ==> b.Done?) && Grows(job, b, c, {})
    ensures Grows(job, a, c, added) && Yield(job, source, order, a, c) == Yield(job, source, order, b, c)
  {
    hide Upto, Expected;
    assert a.Collecting? ==> a.got + added + {} == a.got + added;
  }

  lemma StepFollows(scfg: Config, cfg: Settings, s: Receiver, job: Job, source: Byte, order: int, start: int, ph: Phase,
                    sent: seq<Emission>, loads: seq<Load>, tag: Tag) returns (after: Phase)
    requires scfg.Valid() && job.Valid() && AllCarry(scfg, job, sent, loads)
    requires Follows(cfg, s, job, source, order, start, ph)
    requires s.TableOk() && Permitted(cfg, s, job, source, order, start, sent, loads, tag)
    ensures tag.Brought? ==> tag.i < |sent|
    ensures var t := Step(cfg, s, EventOf(sent, source, tag));
      && Follows(cfg, t, job, source, order, start, after)
      && Grows(job, ph, after, Gained(cfg, s, source, loads, tag))
      && Having(t.delivered, order) == Having(s.delivered, order) + Yield(job, source, order, ph, after)
  {
    var mid := ArrivalFollows(scfg, cfg, s, job, source, order, start, ph, sent, loads, tag);
    assert InTime(cfg, start, sent, source, tag);
    hide Follows, Carries, AllCarry, Permitted, Gained, Early, Receiver.TableOk, Job.Valid, Upto, Step, Having,
         Expected, Sweep, Sweeps, Reached, Grows, Yield, LastOpened;
    var e := EventOf(sent, source, tag);
    ReachedIs(cfg, s, e);
    after := MaybeSweep(cfg, Reached(cfg, s, e), job, source, order, start, mid, Sweeps(cfg, e), e.now, e.delay);
    GrowsJoin(job, source, order, ph, mid, after, Gained(cfg, s, source, loads, tag));
  }

  lemma ReachedIs(cfg: Settings, s: Receiver, e: ReceiverRuns.Event)
    requires s.TableOk()
    ensures Step(cfg, s, e) == if Sweeps(cfg, e) then Sweep(cfg, Reached(cfg, s, e), e.now, e.delay)
      else Reached(cfg, s, e)
    ensures e.Arrive? ==> Reached(cfg, s, e) == Dispatch(cfg, s, e.data, e.source, e.now).0
  {
    StepIs(cfg, s, e);
    hide Dispatch, Sweep, Receiver.TableOk, Step, Sweeps;
  }

  // ----- runs -----

  ghost predicate PermittedRun(cfg: Settings, s: Receiver, job: Job, source: Byte, order: int, start: int,
                               sent: seq<Emission>, loads: seq<Load>, tags: seq<Tag>)
    requires s.TableOk()
    decreases |tags|
  {
    tags == [] ||
    (&& Permitted(cfg, s, job, source, order, start, sent, loads, tags[0])
     && PermittedRun(cfg, Step(cfg, s, EventOf(sent, source, tags[0])), job, source, order, start, sent, loads,
                     tags[1..]))
  }

  predicate InRange(sent: seq<Emission>, tags: seq<Tag>) {
    forall j | 0 <= j < |tags| :: tags[j].Brought? ==> tags[j].i < |sent|
  }

  function EventsOf(sent: seq<Emission>, source: Byte, tags: seq<Tag>): seq<ReceiverRuns.Event>
    requires InRange(sent, tags)
  {
    if tags == [] then []
    else
      assert tags[0].Brought? ==> tags[0].i < |sent|;
      assert forall j | 0 <= j < |tags| - 1 :: tags[1..][j] == tags[j + 1];
      [EventOf(sent, source, tags[0])] + EventsOf(sent, source, tags[1..])
  }

  /** The receiver after these events. */
  function After(cfg: Settings, s: Receiver, source: Byte, sent: seq<Emission>, tags: seq<Tag>): (t: Receiver)
    requires s.TableOk() && InRange(sent, tags)
    ensures t.TableOk()
  {
    Run(cfg, s, EventsOf(sent, source, tags))
  }

  lemma AfterStep(cfg: Settings, s: Receiver, source: Byte, sent: seq<Emission>, tags: seq<Tag>)
    requires s.TableOk() && InRange(sent, tags) && tags != []
    ensures InRange(sent, tags[1..]) && (tags[0].Brought? ==> tags[0].i < |sent|)
    ensures After(cfg, s, source, sent, tags)
         == After(cfg, Step(cfg, s, EventOf(sent, source, tags[0])), source, sent, tags[1..])
  {
    hide Step, Receiver.TableOk;
    assert tags[0].Brought? ==> tags[0].i < |sent|;
    assert forall j | 0 <= j < |tags| - 1 :: tags[1..][j] == tags[j + 1];
    assert EventsOf(sent, source, tags)[1..] == EventsOf(sent, source, tags[1..]);
  }

  /** The fragments that the events bring to the receiver. */
  function Gathered(cfg: Settings, s: Receiver, source: Byte, sent: seq<Emission>, loads: seq<Load>,
                    tags: seq<Tag>): set<nat>
    requires s.TableOk() && InRange(sent, tags)
    decreases |tags|
  {
    if tags == [] then {}
    else
      AfterStep(cfg, s, source, sent, tags);
      Gained(cfg, s, source, loads, tags[0])
        + Gathered(cfg, Step(cfg, s, EventOf(sent, source, tags[0])), source, sent, loads, tags[1..])
  }

  lemma YieldJoin(job: Job, source: Byte, order: int, a: Phase, b: Phase, c: Phase, had: seq<Delivered>, x: set<nat>,
                  y: set<nat>)
    requires Grows(job, a, b, x) && Grows(job, b, c, y)
    ensures Grows(job, a, c, x + y)
    ensures had + Yield(job, source, order, a, b) + Yield(job, source, order, b, c)
      == had + Yield(job, source, order, a, c)
  {
    hide Expected, Upto;
    assert a.Collecting? ==> a.got + (x + y) == a.got + x + y;
  }

  /** However the events follow each other: the bucket has exactly what they brought, until its frame is
      delivered complete, and that happens once. */
  lemma {:induction false} RunFollows(scfg: Config, cfg: Settings, s: Receiver, job: Job, source: Byte, order: int,
                                      start: int, ph: Phase, sent: seq<Emission>, loads: seq<Load>, tags: seq<Tag>)
    returns (after: Phase)
    requires scfg.Valid() && job.Valid() && AllCarry(scfg, job, sent, loads) && InRange(sent, tags)
    requires Follows(cfg, s, job, source, order, start, ph)
    requires s.TableOk() && PermittedRun(cfg, s, job, source, order, start, sent, loads, tags)
    ensures var t := After(cfg, s, source, sent, tags);
      && Follows(cfg, t, job, source, order, start, after)
      && Grows(job, ph, after, Gathered(cfg, s, source, sent, loads, tags))
      && Having(t.delivered, order) == Having(s.delivered, order) + Yield(job, source, order, ph, after)
    decreases |tags|
  {
    hide Having, Expected, Follows, Receiver.TableOk, Permitted, Step, Gained, Yield, AllCarry, Grows, Job.Valid,
         EventOf, After, InRange;
    if tags == [] {
      after := ph;
      NoEvents(cfg, s, job, source, order, sent, ph);
    } else {
      AfterStep(cfg, s, source, sent, tags);
      var mid := StepFollows(scfg, cfg, s, job, source, order, start, ph, sent, loads, tags[0]);
      var t := Step(cfg, s, EventOf(sent, source, tags[0]));
      after := RunFollows(scfg, cfg, t, job, source, order, start, mid, sent, loads, tags[1..]);
      YieldJoin(job, source, order, ph, mid, after, Having(s.delivered, order), Gained(cfg, s, source, loads, tags[0]),
                Gathered(cfg, t, source, sent, loads, tags[1..]));
    }
  }

  lemma NoEvents(cfg: Settings, s: Receiver, job: Job, source: Byte, order: int, sent: seq<Emission>, ph: Phase)
    requires s.TableOk()
    ensures InRange(sent, []) && After(cfg, s, source, sent, []) == s
    ensures Yield(job, source, order, ph, ph) == [] && Grows(job, ph, ph, {})
  {
    hide Receiver.TableOk, Upto;
    assert ph.Collecting? ==> ph.got + {} == ph.got;
  }

  // ----- the whole transmission -----

  /** The first packet of the job to arrive: its slot is free behind the front, which does not end it. */
  ghost predicate Opening(cfg: Settings, s: Receiver, job: Job, source: Byte, sent: seq<Emission>, loads: seq<Load>,
                          tag: Tag)
    requires s.TableOk()
  {
    && tag.Brought? && tag.i < |sent| == |loads| && loads[tag.i].Part? && InTime(cfg, tag.now, sent, source, tag)
    && Elsewhere(job, loads[tag.i].front) && !Lost(cfg, s, loads[tag.i].front, source, tag.now)
    && Free(AfterFront(cfg, s, loads[tag.i].front, source, tag.now), job) && OpensAt(job, loads[tag.i].lo)
  }

  /** The order that the job's frame gets. */
  function OrderOf(cfg: Settings, s: Receiver, job: Job, source: Byte, loads: seq<Load>, tag: Tag): int
    requires s.TableOk() && tag.Brought? && tag.i < |loads| && loads[tag.i].Part?
  {
    NextOrder(AfterFront(cfg, s, loads[tag.i].front, source, tag.now), job.frameNo)
  }

  lemma OpeningFollows(scfg: Config, cfg: Settings, s: Receiver, job: Job, source: Byte, sent: seq<Emission>,
                       loads: seq<Load>, tag: Tag) returns (after: Phase)
    requires scfg.Valid() && s.TableOk() && job.Valid() && AllCarry(scfg, job, sent, loads)
    requires Opening(cfg, s, job, source, sent, loads, tag)
    ensures var order, t := OrderOf(cfg, s, job, source, loads, tag), Step(cfg, s, EventOf(sent, source, tag));
      && Follows(cfg, t, job, source, order, tag.now, after) && LastOpened(t, job.frameNo, order)
      && Grows(job, Collecting({}), after, Gained(cfg, s, source, loads, tag))
      && Having(t.delivered, order) == Having(s.delivered, order) + Yield(job, source, order, Collecting({}), after)
  {
    var l, order := loads[tag.i], OrderOf(cfg, s, job, source, loads, tag);
    assert Carries(scfg, job, sent[tag.i].bytes, l) && InTime(cfg, tag.now, sent, source, tag);
    hide Dispatch, Follows, Carries, AllCarry, AfterFront, Lost, Elsewhere, Early, Receiver.TableOk, Job.Valid, Upto,
         Free, Having, Expected, Sweep, Step, LastOpened, Sweeps, NextOrder, Good;
    FirstLoad(scfg, cfg, s, job, source, sent[tag.i].bytes, l, tag.now);
    hide Grows, Yield, Reached;
    var e := EventOf(sent, source, tag);
    ReachedIs(cfg, s, e);
    var mid := Gains(Collecting({}), l.lo, l.hi);
    after := MaybeSweep(cfg, Reached(cfg, s, e), job, source, order, tag.now, mid, Sweeps(cfg, e), e.now, e.delay);
    GrowsJoin(job, source, order, Collecting({}), mid, after, Gained(cfg, s, source, loads, tag));
  }

  /** What the sweep at the end finds: everything arrived, and the frame is delivered, now or before; or
      something is missing, and nothing of it was delivered, nor is it now unless it is due and broken. */
  lemma FinalSweep(cfg: Settings, s: Receiver, job: Job, source: Byte, order: int, start: int, ph: Phase,
                   now: int, delay: int -> int)
    requires Follows(cfg, s, job, source, order, start, ph)
    requires ph.Done? || Upto(job.Of() + 1) <= ph.got
    ensures s.TableOk()
    ensures Having(Sweep(cfg, s, now, delay).delivered, order)
         == Having(s.delivered, order) + Yield(job, source, order, ph, Done)
    ensures order !in Sweep(cfg, s, now, delay).table
  {
    hide Sweep, Having, Expected, StartedAt, Good, Receiver.TableOk;
    FollowsValid(cfg, s, job, source, order, start, ph);
    if ph.Collecting? { NoMore(s.buckets[s.Index(job.frameNo)], job, source, order); }
    SweepStep(cfg, s, job, source, order, ph, now, delay);
  }

  lemma NoMore(b: Bucket, job: Job, source: Byte, order: int)
    requires job.Valid() && Collects(b, job, source, order)
    ensures b.asm.received <= Upto(job.Of() + 1)
  {
  }

  lemma BrokenSweep(cfg: Settings, s: Receiver, job: Job, source: Byte, order: int, start: int, got: set<nat>,
                    now: int, delay: int -> int)
    requires Follows(cfg, s, job, source, order, start, Collecting(got)) && !(Upto(job.Of() + 1) <= got)
    ensures s.TableOk() && s.buckets[s.Index(job.frameNo)].asm.Ok()
    ensures var b := s.buckets[s.Index(job.frameNo)];
      && b.asm.received == got && DeliveredFrame(b).broken
      && Having(Sweep(cfg, s, now, delay).delivered, order)
           == Having(s.delivered, order) + if Due(cfg, b, now) then [DeliveredFrame(b)] else []
  {
    var i := s.Index(job.frameNo);
    var b := s.buckets[i];
    assert s.Listed(i);
    ModThroughRing(order, |s.buckets|);
    CompleteMeansAll(b.asm);
    hide Sweep, Having, Due, Good, Placed, Receiver.BucketsOk, Receiver.Pending;
    SweepUnder(cfg, s, now, delay, i, order);
  }

  /** Exactly when the frame is delivered. The first packet opens the slot, then anything permitted happens:
      packets of the send in any order and number, packets of other superframes and of other senders,
          sweeps. If every fragment
      was brought at least once by a packet that no front ended, then after a last sweep one unbroken frame
      was delivered under the job's order, with the original bytes and metadata. If not, none was, and a last
      sweep delivers at most a broken one. */
  lemma TransmissionDelivers(scfg: Config, cfg: Settings, s: Receiver, job: Job, source: Byte, sent: seq<Emission>,
                             loads: seq<Load>, first: Tag, tags: seq<Tag>, now: int, delay: int -> int)
    requires scfg.Valid() && s.TableOk() && job.Valid() && AllCarry(scfg, job, sent, loads) && InRange(sent, tags)
    requires Opening(cfg, s, job, source, sent, loads, first)
    requires PermittedRun(cfg, Step(cfg, s, EventOf(sent, source, first)), job, source,
                          OrderOf(cfg, s, job, source, loads, first), first.now, sent, loads, tags)
    ensures var order, t := OrderOf(cfg, s, job, source, loads, first), Step(cfg, s, EventOf(sent, source, first));
      var u, brought := After(cfg, t, source, sent, tags),
                        Gained(cfg, s, source, loads, first) + Gathered(cfg, t, source, sent, loads, tags);
      var end := Having(Sweep(cfg, u, now, delay).delivered, order);
      if Upto(job.Of() + 1) <= brought then
        && end == Having(s.delivered, order) + [Expected(job, source, order)]
        && order !in Sweep(cfg, u, now, delay).table
      else
        var b := u.buckets[u.Index(job.frameNo)];
        && Having(u.delivered, order) == Having(s.delivered, order) && b.asm.Ok() && DeliveredFrame(b).broken
        && end == Having(s.delivered, order) + if Due(cfg, b, now) then [DeliveredFrame(b)] else []
  {
    hide Having, Expected, Follows, Receiver.TableOk, Step, PermittedRun, AllCarry, Job.Valid, Grows, Gained, Gathered,
         Yield, Due, OrderOf, After, EventOf, Upto, DeliveredFrame, InRange, AfterFront, Lost, Elsewhere, Early, Free;
    var order, t := OrderOf(cfg, s, job, source, loads, first), Step(cfg, s, EventOf(sent, source, first));
    var mid := OpeningFollows(scfg, cfg, s, job, source, sent, loads, first);
    var after := RunFollows(scfg, cfg, t, job, source, order, first.now, mid, sent, loads, tags);
    var u := After(cfg, t, source, sent, tags);
    YieldJoin(job, source, order, Collecting({}), mid, after, Having(s.delivered, order),
              Gained(cfg, s, source, loads, first),
              Gathered(cfg, t, source, sent, loads, tags));
    AllOrNot(job, after, Gained(cfg, s, source, loads, first) + Gathered(cfg, t, source, sent, loads, tags));
    if after.Done? || Upto(job.Of() + 1) <= after.got {
      FinalSweep(cfg, u, job, source, order, first.now, after, now, delay);
      LastYield(job, source, order, after, Having(s.delivered, order));
    } else {
      BrokenSweep(cfg, u, job, source, order, first.now, after.got, now, delay);
      NoYield(job, source, order, after.got, Having(s.delivered, order));
    }
  }

  lemma AllOrNot(job: Job, after: Phase, brought: set<nat>)
    requires Grows(job, Collecting({}), after, brought)
    ensures after.Done? || Upto(job.Of() + 1) <= after.got <==> Upto(job.Of() + 1) <= brought
  {
    assert {} + brought == brought;
    hide Upto;
  }

  lemma LastYield(job: Job, source: Byte, order: int, after: Phase, had: seq<Delivered>)
    ensures had + Yield(job, source, order, Collecting({}), after) + Yield(job, source, order, after, Done)
         == had + [Expected(job, source, order)]
  {
    hide Expected;
  }

  lemma NoYield(job: Job, source: Byte, order: int, got: set<nat>, had: seq<Delivered>)
    ensures had + Yield(job, source, order, Collecting({}), Collecting(got)) == had
  {
  }

  // ----- from send to delivery -----

  /** What one call adds to the wire. */
  function NewEmissions(cfg: Config, st: State, data: seq<Byte>, payloadType: Byte, pts: Word64, dts: Word64,
                        code: Word32, stream: Byte, flags: Byte, now: int): seq<Emission>
    requires cfg.Valid()
  {
    var sent := Send(cfg, st, data, payloadType, pts, dts, code, stream, flags, now).0.sent;
    if |st.sent| <= |sent| then sent[|st.sent|..] else []
  }

  /** The store that the fragments are taken into. */
  function SendingStore(cfg: Config, st: State, now: int): Store {
    if cfg.retentionMs > 0 then Evict(LimitsOf(cfg), st.store, now, 0) else st.store
  }

  /** An accepted call: its job, its packets and what they carry. */
  ghost predicate Sends(cfg: Config, st: State, data: seq<Byte>, payloadType: Byte, pts: Word64, dts: Word64,
                        code: Word32, stream: Byte, flags: Byte, now: int, job: Job, sent: seq<Emission>,
                        loads: seq<Load>)
    requires cfg.Valid()
  {
    && data != [] && !TooManyFragments(cfg, |data|)
    && Send(cfg, st, data, payloadType, pts, dts, code, stream, flags, now).1 == Ok
    && job == JobOf(cfg, data, payloadType, pts, dts, code, stream, flags, st.frameNo) && job.Valid()
    && sent == NewEmissions(cfg, st, data, payloadType, pts, dts, code, stream, flags, now)
    && loads == JobLoads(cfg, SendingStore(cfg, st, now), job, now)
  }

  /** The frame the user should get for a call. */
  function SentFrame(frameNo: Word16, data: seq<Byte>, payloadType: Byte, pts: Word64, dts: Word64, code: Word32,
                     stream: Byte, flags: Byte, source: Byte, order: int): Delivered
  {
    var fits := dts <= pts && pts != UINT64_MAX && pts - dts < UINT32_MAX;
    var meta := Meta(payloadType, code, pts, if fits then dts else UINT64_MAX, GetFlags(flags), stream, source);
    Delivered(order, frameNo, Cells(data), meta, false)
  }

  lemma SendPackets(cfg: Config, st: State, data: seq<Byte>, payloadType: Byte, pts: Word64, dts: Word64, code: Word32,
                    stream: Byte, flags: Byte, now: int, job: Job, sent: seq<Emission>, loads: seq<Load>, source: Byte,
                    order: int)
    requires cfg.Valid() && Sends(cfg, st, data, payloadType, pts, dts, code, stream, flags, now, job, sent, loads)
    ensures job.Valid() && AllCarry(cfg, job, sent, loads) && Tile(loads, 0, job.Of() + 1)
    ensures job.frameNo == st.frameNo
    ensures Expected(job, source, order)
         == SentFrame(st.frameNo, data, payloadType, pts, dts, code, stream, flags, source, order)
  {
    hide AllCarry, Tile, SendJob, Evict, JobLoads, Job.Valid, CutOf;
    DtsRoundTrip(pts, dts);
    var store := SendingStore(cfg, st, now);
    SendCarries(cfg, store, job, now);
    var more := SendJob(cfg, store, job, now).1;
    assert (st.sent + more)[|st.sent|..] == more;
  }

  /** The i-th packet arrives at least once, and not only when its front ends it. */
  predicate Lands(cfg: Settings, s: Receiver, source: Byte, sent: seq<Emission>, loads: seq<Load>, tags: seq<Tag>,
                  i: nat)
    requires s.TableOk() && InRange(sent, tags) && i < |loads| && loads[i].Part?
    decreases |tags|
  {
    if tags == [] then false
    else
      AfterStep(cfg, s, source, sent, tags);
      || (tags[0].Brought? && tags[0].i == i && !Lost(cfg, s, loads[i].front, source, tags[0].now))
      || Lands(cfg, Step(cfg, s, EventOf(sent, source, tags[0])), source, sent, loads, tags[1..], i)
  }

  lemma {:induction false} LandsGathered(cfg: Settings, s: Receiver, source: Byte, sent: seq<Emission>,
                                         loads: seq<Load>, tags: seq<Tag>, i: nat)
    requires s.TableOk() && InRange(sent, tags) && i < |loads| && loads[i].Part?
    requires Lands(cfg, s, source, sent, loads, tags, i)
    ensures Upto(loads[i].hi) - Upto(loads[i].lo) <= Gathered(cfg, s, source, sent, loads, tags)
    decreases |tags|
  {
    AfterStep(cfg, s, source, sent, tags);
    hide Step, Receiver.TableOk, Lost, EventOf, InRange, Upto;
    if !(tags[0].Brought? && tags[0].i == i && !Lost(cfg, s, loads[i].front, source, tags[0].now)) {
      LandsGathered(cfg, Step(cfg, s, EventOf(sent, source, tags[0])), source, sent, loads, tags[1..], i);
    }
  }

  /** Every packet of the job lands. */
  predicate AllLand(cfg: Settings, s: Receiver, source: Byte, sent: seq<Emission>, loads: seq<Load>, first: Tag,
                    tags: seq<Tag>)
    requires s.TableOk() && InRange(sent, tags)
  {
    forall i | 0 <= i < |loads| && loads[i].Part? ::
      (first.Brought? && first.i == i) || Lands(cfg, s, source, sent, loads, tags, i)
  }

  lemma {:induction false} GatheredLands(cfg: Settings, s: Receiver, source: Byte, sent: seq<Emission>,
                                         loads: seq<Load>, tags: seq<Tag>, k: nat) returns (i: nat)
    requires s.TableOk() && InRange(sent, tags) && k in Gathered(cfg, s, source, sent, loads, tags)
    ensures i < |loads| && loads[i].Part? && loads[i].lo <= k < loads[i].hi
    ensures Lands(cfg, s, source, sent, loads, tags, i)
    decreases |tags|
  {
    AfterStep(cfg, s, source, sent, tags);
    hide Step, Receiver.TableOk, Lost, EventOf, InRange;
    if k in Gained(cfg, s, source, loads, tags[0]) {
      i := tags[0].i;
    } else {
      i := GatheredLands(cfg, Step(cfg, s, EventOf(sent, source, tags[0])), source, sent, loads, tags[1..], k);
    }
  }

  /** Everything was brought exactly if each packet of the job landed. */
  lemma AllGathered(cfg: Settings, s: Receiver, t: Receiver, job: Job, source: Byte, sent: seq<Emission>,
                    loads: seq<Load>, first: Tag, tags: seq<Tag>)
    requires s.TableOk() && t.TableOk() && InRange(sent, tags) && job.Valid() && Tile(loads, 0, job.Of() + 1)
    requires first.Brought? && first.i < |loads| && loads[first.i].Part?
    requires !Lost(cfg, s, loads[first.i].front, source, first.now)
    ensures AllLand(cfg, t, source, sent, loads, first, tags) <==>
      Upto(job.Of() + 1) <= Gained(cfg, s, source, loads, first) + Gathered(cfg, t, source, sent, loads, tags)
  {
    hide Gathered, Lands, Lost, Receiver.TableOk, Job.Valid, Tile, InRange;
    var brought := Gained(cfg, s, source, loads, first) + Gathered(cfg, t, source, sent, loads, tags);
    if AllLand(cfg, t, source, sent, loads, first, tags) {
      forall k <- Upto(job.Of() + 1) ensures k in brought {
        var i := TileCovers(loads, 0, job.Of() + 1, k);
        assert k in Upto(loads[i].hi) - Upto(loads[i].lo);
        if first.i != i { LandsGathered(cfg, t, source, sent, loads, tags, i); }
      }
    }
    if Upto(job.Of() + 1) <= brought {
      forall i | 0 <= i < |loads| && loads[i].Part? && first.i != i ensures Lands(cfg, t, source, sent, loads, tags,
          i) {
        BroughtLands(cfg, s, t, job, source, sent, loads, first, tags, i);
      }
    }
  }

  lemma BroughtLands(cfg: Settings, s: Receiver, t: Receiver, job: Job, source: Byte, sent: seq<Emission>,
                     loads: seq<Load>, first: Tag, tags: seq<Tag>, i: nat)
    requires s.TableOk() && t.TableOk() && InRange(sent, tags) && job.Valid() && Tile(loads, 0, job.Of() + 1)
    requires first.Brought? && i < |loads| && loads[i].Part? && first.i != i
    requires Upto(job.Of() + 1) <= Gained(cfg, s, source, loads, first) + Gathered(cfg, t, source, sent, loads, tags)
    ensures Lands(cfg, t, source, sent, loads, tags, i)
  {
    hide Gathered, Lands, Lost, Receiver.TableOk, Job.Valid, Tile, InRange;
    TileRange(loads, 0, job.Of() + 1, i);
    var k := loads[i].lo;
    assert k in Upto(job.Of() + 1);
    if k in Gained(cfg, s, source, loads, first) {
      TileUnique(loads, 0, job.Of() + 1, i, first.i, k);
    } else {
      var j := GatheredLands(cfg, t, source, sent, loads, tags, k);
      TileUnique(loads, 0, job.Of() + 1, i, j, k);
    }
  }

  /** `send` on one side, `receive` on the other, whatever the payload, the MTU and the sub-fragment mode, and
      whatever waits for retransmission. The frame is delivered, once, unbroken, with the original bytes, PTS,
      payload type and code, stream and high-nibble flags, and with the DTS whenever PTS - DTS fits 32 bits,
      if and only if every packet of the job arrived at least once without its front ending it. Otherwise
      nothing of it is delivered before its deadline, and then only a broken frame. */
  lemma SendThenReceive(scfg: Config, st: State, data: seq<Byte>, payloadType: Byte, pts: Word64, dts: Word64,
                        code: Word32, stream: Byte, flags: Byte, sentAt: int, job: Job, sent: seq<Emission>,
                        loads: seq<Load>, cfg: Settings, s: Receiver, source: Byte, first: Tag, tags: seq<Tag>,
                        now: int, delay: int -> int)
    requires scfg.Valid() && s.TableOk()
    requires Sends(scfg, st, data, payloadType, pts, dts, code, stream, flags, sentAt, job, sent, loads)
    requires Opening(cfg, s, job, source, sent, loads, first) && InRange(sent, tags)
    requires PermittedRun(cfg, Step(cfg, s, EventOf(sent, source, first)), job, source,
                          OrderOf(cfg, s, job, source, loads, first), first.now, sent, loads, tags)
    ensures var order, t := OrderOf(cfg, s, job, source, loads, first), Step(cfg, s, EventOf(sent, source, first));
      var u := After(cfg, t, source, sent, tags);
      var end := Having(Sweep(cfg, u, now, delay).delivered, order);
      if AllLand(cfg, t, source, sent, loads, first, tags) then
        && end == Having(s.delivered, order)
                  + [SentFrame(st.frameNo, data, payloadType, pts, dts, code, stream, flags, source, order)]
        && order !in Sweep(cfg, u, now, delay).table
      else
        var b := u.buckets[u.Index(job.frameNo)];
        && Having(u.delivered, order) == Having(s.delivered, order) && b.asm.Ok() && DeliveredFrame(b).broken
        && end == Having(s.delivered, order) + if Due(cfg, b, now) then [DeliveredFrame(b)] else []
  {
    assert first.Brought? && first.i < |sent| == |loads| && loads[first.i].Part?
        && !Lost(cfg, s, loads[first.i].front, source, first.now);
    hide Having, Receiver.TableOk, Step, PermittedRun, AllCarry, Job.Valid, Gained, Gathered, Due, Opening, OrderOf,
         After, EventOf, Upto, DeliveredFrame, InRange, Sends, AllLand, SentFrame, Lost, Tile;
    var order, t := OrderOf(cfg, s, job, source, loads, first), Step(cfg, s, EventOf(sent, source, first));
    SendPackets(scfg, st, data, payloadType, pts, dts, code, stream, flags, sentAt, job, sent, loads, source, order);
    TransmissionDelivers(scfg, cfg, s, job, source, sent, loads, first, tags, now, delay);
    AllGathered(cfg, s, t, job, source, sent, loads, first, tags);
  }

  // ----- when fronts can be trusted -----

  /** If every live request of the size of a new frame is for a Type1 frame when `send` is called, a front can
      end its bundle only by its result. */
  lemma FrontsByResult(scfg: Config, st: State, log: seq<Sent>, data: seq<Byte>, payloadType: Byte, pts: Word64,
                       dts: Word64, code: Word32, stream: Byte, flags: Byte, sentAt: int, job: Job, sent: seq<Emission>,
                       loads: seq<Load>, cfg: Settings, s: Receiver, source: Byte, i: nat, now: int)
    requires scfg.Valid() && s.TableOk() && Agree(st.store, log)
    requires Sends(scfg, st, data, payloadType, pts, dts, code, stream, flags, sentAt, job, sent, loads)
    requires OnlyType1Fits(SendingStore(scfg, st, sentAt), job.f as int + 8)
    requires i < |loads| && loads[i].Part? && loads[i].front != []
    ensures IsType1(loads[i].front[0]) && Readable(loads[i].front[0])
    ensures var r := Handle(cfg, s, Decode(loads[i].front[0]), source, now).1;
      Lost(cfg, s, loads[i].front, source, now) <==> r != Ok && r != DuplicateFragment
  {
    var store := SendingStore(scfg, st, sentAt);
    StoreAgrees(scfg, st, log, sentAt);
    FrontsAreType1(scfg, store, log, job, sentAt);
    assert loads == JobLoads(scfg, store, job, sentAt);
    SendPackets(scfg, st, data, payloadType, pts, dts, code, stream, flags, sentAt, job, sent, loads, source, 0);
    assert Carries(scfg, job, sent[i].bytes, loads[i]);
    hide Handle, Decode, JobLoads, Sends, Agree, OnlyType1Fits, Wrapper, Receiver.TableOk;
    FrontFrame(scfg, job, loads[i]);
  }

  lemma StoreAgrees(cfg: Config, st: State, log: seq<Sent>, now: int)
    requires Agree(st.store, log)
    ensures Agree(SendingStore(cfg, st, now), log)
  {
    EvictAgrees(LimitsOf(cfg), st.store, now, 0, log);
    hide Agree, Evict;
  }

  // ----- without retransmits -----

  lemma NoFrontAt(cfg: Settings, s: Receiver, source: Byte, loads: seq<Load>, i: nat, now: int)
    requires s.TableOk() && NoFronts(loads) && i < |loads|
    ensures loads[i].Part? && !Lost(cfg, s, loads[i].front, source, now)
      && AfterFront(cfg, s, loads[i].front, source, now) == s
  {
    hide Receiver.TableOk;
  }

  lemma PlainLast(scfg: Config, cfg: Settings, s: Receiver, job: Job, source: Byte, order: int, sent: seq<Emission>,
                  loads: seq<Load>, tag: Tag)
    requires scfg.Valid() && s.TableOk() && Good(job) && job.Valid() && AllCarry(scfg, job, sent, loads)
    requires NoFronts(loads)
    requires LastOpened(s, job.frameNo, order) && !tag.Strange? && (tag.Brought? ==> tag.i < |sent|)
    ensures LastOpened(Step(cfg, s, EventOf(sent, source, tag)), job.frameNo, order)
  {
    hide Dispatch, Carries, Receiver.TableOk, Job.Valid, Good, LastOpened, Sweep, Step, Members, Fragments, NoFronts,
         Lost, AfterFront, Sweeps;
    var e := EventOf(sent, source, tag);
    StepIs(cfg, s, e);
    var t := FrameOrder.Swept(cfg, s, e);
    if tag.Brought? {
      NoFrontAt(cfg, s, source, loads, tag.i, tag.now);
      var l := loads[tag.i];
      assert Carries(scfg, job, sent[tag.i].bytes, l);
      LoadDispatch(scfg, cfg, s, job, sent[tag.i].bytes, l, source, tag.now);
      MembersLast(cfg, s, job, source, order, l.lo, l.hi, tag.now);
    }
    if Sweeps(cfg, e) { SweepLast(cfg, t, job.frameNo, order, e.now, e.delay); }
  }

  /** With no retransmits and no other traffic, the times of the sweeps are all that is asked. */
  lemma {:induction false} PlainPermitted(scfg: Config, cfg: Settings, s: Receiver, job: Job, source: Byte, order: int,
                                          start: int, sent: seq<Emission>, loads: seq<Load>, tags: seq<Tag>)
    requires scfg.Valid() && s.TableOk() && Good(job) && job.Valid() && AllCarry(scfg, job, sent, loads)
    requires NoFronts(loads)
    requires LastOpened(s, job.frameNo, order) && InRange(sent, tags)
    requires forall j | 0 <= j < |tags| :: !tags[j].Strange? && InTime(cfg, start, sent, source, tags[j])
    ensures PermittedRun(cfg, s, job, source, order, start, sent, loads, tags)
    decreases |tags|
  {
    hide Receiver.TableOk, Job.Valid, Good, LastOpened, Step, Carries, Early, Lost, AfterFront, EventOf;
    if tags != [] {
      assert tags[0].Brought? ==> tags[0].i < |sent|;
      PlainOne(cfg, s, job, source, order, start, sent, loads, tags[0]);
      PlainLast(scfg, cfg, s, job, source, order, sent, loads, tags[0]);
      hide Permitted, AllCarry, NoFronts;
      var t := Step(cfg, s, EventOf(sent, source, tags[0]));
      assert forall j | 0 <= j < |tags| - 1 :: tags[1..][j] == tags[j + 1];
      PlainPermitted(scfg, cfg, t, job, source, order, start, sent, loads, tags[1..]);
    }
  }

  lemma PlainOne(cfg: Settings, s: Receiver, job: Job, source: Byte, order: int, start: int,
                 sent: seq<Emission>, loads: seq<Load>, tag: Tag)
    requires s.TableOk() && NoFronts(loads) && |sent| == |loads|
    requires LastOpened(s, job.frameNo, order) && !tag.Strange? && InTime(cfg, start, sent, source, tag)
    ensures Permitted(cfg, s, job, source, order, start, sent, loads, tag)
  {
    hide Receiver.TableOk, LastOpened, Early, NextOrder;
    LastUnwraps(s, job.frameNo, order);
    if tag.Brought? { NoFrontAt(cfg, s, source, loads, tag.i, tag.now); assert loads[tag.i].front == []; }
  }

  predicate Arrives(tags: seq<Tag>, i: nat) { exists j | 0 <= j < |tags| :: tags[j].Brought? && tags[j].i == i }

  /** Without bundling, or with nothing queued for retransmission, and without other traffic: whatever the
      order and the repetitions in which the packets arrive, the frame is delivered if each arrives once. */
  lemma PlainSendThenReceive(scfg: Config, st: State, data: seq<Byte>, payloadType: Byte, pts: Word64, dts: Word64,
                             code: Word32, stream: Byte, flags: Byte, sentAt: int, job: Job, sent: seq<Emission>,
                             loads: seq<Load>, cfg: Settings, s: Receiver, source: Byte, first: Tag, tags: seq<Tag>,
                             now: int, delay: int -> int)
    requires scfg.Valid() && (scfg.mode.Single? || st.store.queue == [])
    requires Sends(scfg, st, data, payloadType, pts, dts, code, stream, flags, sentAt, job, sent, loads)
    requires Free(s, job) && s.TableOk() && first.Brought? && InTime(cfg, first.now, sent, source, first)
    requires first.i < |loads| && (loads[first.i].Part? ==> OpensAt(job, loads[first.i].lo))
    requires InRange(sent, tags) && forall j | 0 <= j < |tags| ::
      !tags[j].Strange? && InTime(cfg, first.now, sent, source, tags[j])
    requires forall i | 0 <= i < |sent| :: first.i == i || Arrives(tags, i)
    ensures var order := NextOrder(s, st.frameNo);
      var u := After(cfg, Step(cfg, s, EventOf(sent, source, first)), source, sent, tags);
      && Having(Sweep(cfg, u, now, delay).delivered, order)
           == Having(s.delivered, order)
              + [SentFrame(st.frameNo, data, payloadType, pts, dts, code, stream, flags, source, order)]
      && order !in Sweep(cfg, u, now, delay).table
  {
    hide Receiver.TableOk, Good, Job.Valid, Evict, Step, Having, SentFrame, NextOrder, EventOf, Early, JobLoads,
         LastOpened, InRange, PermittedRun, Lost, AfterFront, Carries, Sweep, DeliveredFrame, After, Gathered, Gained,
         Upto, Lands, Sends, Due;
    FreeValid(s, job);
    var order := NextOrder(s, st.frameNo);
    PlainSends(scfg, st, data, payloadType, pts, dts, code, stream, flags, sentAt, job, sent, loads);
    SendPackets(scfg, st, data, payloadType, pts, dts, code, stream, flags, sentAt, job, sent, loads, source, order);
    NoFrontAt(cfg, s, source, loads, first.i, first.now);
    assert loads[first.i].front == [];
    assert Opening(cfg, s, job, source, sent, loads, first);
    assert OrderOf(cfg, s, job, source, loads, first) == order;
    var t := Step(cfg, s, EventOf(sent, source, first));
    var mid := OpeningFollows(scfg, cfg, s, job, source, sent, loads, first);
    PlainPermitted(scfg, cfg, t, job, source, order, first.now, sent, loads, tags);
    assert |sent| == |loads|;
    hide Opening, OrderOf, Follows, Grows, Yield, AllCarry;
    forall i | 0 <= i < |loads| && loads[i].Part? && first.i != i ensures Lands(cfg, t, source, sent, loads, tags, i) {
      assert Arrives(tags, i);
      var j :| 0 <= j < |tags| && tags[j].Brought? && tags[j].i == i;
      PlainLands(cfg, t, source, sent, loads, tags, i, j);
    }
    SendThenReceive(scfg, st, data, payloadType, pts, dts, code, stream, flags, sentAt, job, sent, loads, cfg, s,
                    source, first,
                    tags, now, delay);
  }

  lemma PlainSends(scfg: Config, st: State, data: seq<Byte>, payloadType: Byte, pts: Word64, dts: Word64, code: Word32,
                   stream: Byte, flags: Byte, sentAt: int, job: Job, sent: seq<Emission>, loads: seq<Load>)
    requires scfg.Valid() && (scfg.mode.Single? || st.store.queue == [])
    requires Sends(scfg, st, data, payloadType, pts, dts, code, stream, flags, sentAt, job, sent, loads)
    ensures NoFronts(loads)
  {
    EvictKeepsQueue(LimitsOf(scfg), st.store, sentAt, 0);
    hide Evict, JobLoads, NoFronts, SendJob, CutOf, Job.Valid;
    PlainLoads(scfg, SendingStore(scfg, st, sentAt), job, sentAt);
  }

  lemma {:induction false} PlainLands(cfg: Settings, s: Receiver, source: Byte, sent: seq<Emission>, loads: seq<Load>,
                                      tags: seq<Tag>, i: nat, j: nat)
    requires s.TableOk() && InRange(sent, tags) && NoFronts(loads) && i < |loads|
    requires j < |tags| && tags[j].Brought? && tags[j].i == i
    ensures loads[i].Part? && Lands(cfg, s, source, sent, loads, tags, i)
    decreases |tags|
  {
    hide Step, Receiver.TableOk, Lost, EventOf, InRange, AfterFront;
    AfterStep(cfg, s, source, sent, tags);
    NoFrontAt(cfg, s, source, loads, i, tags[0].now);
    if j > 0 {
      assert tags[1..][j - 1] == tags[j];
      PlainLands(cfg, Step(cfg, s, EventOf(sent, source, tags[0])), source, sent, loads, tags[1..], i, j - 1);
    }
  }
}
