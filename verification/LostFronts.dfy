/** How a retransmit in front of a bundle comes to cost what is behind it: it is not a Type1 frame but has the
    size of one, or it repeats a fragment of a frame that was delivered already. */
module LostFronts {
  import opened Wire
  import opened Fragmenter
  import opened FrameMemory
  import opened NackRanges
  import opened Results
  import opened Retention
  import opened RetentionRuns
  import opened RetentionLimits
  import opened SenderSpec
  import opened Retransmits
  import opened Loads
  import opened SenderRuns
  import opened Keeping
  import opened NackService
  import opened ReceiverSpec
  import opened ReceiverRuns
  import opened EndToEnd
  import opened Bundles
  import opened BundleTraffic
  import opened Transmission
  import opened Repair
  import opened Holding

  // ----- the sender -----

  /** The request for fragment 0 of this frame. */
  function FirstAgain(stream: Byte, frameNo: Word16): seq<Byte> { EncodeNack([NackEntry(stream, frameNo, 0, 0)]) }

  /** With nothing else waiting, it is all that waits. */
  lemma OneWaits(st: Store, log: seq<Sent>, stream: Byte, frameNo: Word16)
    requires Agree(st, log) && st.queue == []
    requires Key(frameNo, 0) in st.buffer && st.buffer[Key(frameNo, 0)].stream == stream
    ensures var u, key := NackEffect(st, FirstAgain(stream, frameNo)).0, Key(frameNo, 0);
      && Agree(u, log) && u.buffer == st.buffer && u.order == st.order
      && u.queue == [Ticket(key, u.buffer[key].generation)]
  {
    var key, gaps := Key(frameNo, 0), [Gap(0, 0)];
    var g := st.buffer[key].generation;
    assert !InQueue(st, g);
    assert EntryList(stream, frameNo, gaps) == [NackEntry(stream, frameNo, 0, 0)];
    OnlyZero();
    hide Agree, EncodeNack, NackEffect, RequestEntries, RequestAll, Expand;
    NackMessageApplied(st, [NackEntry(stream, frameNo, 0, 0)]);
    EntriesRequest(st, stream, frameNo, gaps);
    RequestExact(st, log, stream, frameNo, [0]);
    assert WantedTickets(st, stream, frameNo, [0]) == [Ticket(key, g)] + WantedTickets(st, stream, frameNo, []);
  }

  lemma OnlyZero()
    ensures Expand([Gap(0, 0)]) == [0]
  {
  }

  /** The sender after this send and a request for its first fragment. */
  function AskedAgain(cfg: Config, s: State, op: Op): State
    requires cfg.Valid() && Accepted(cfg, op)
  {
    Apply(cfg, Apply(cfg, s, op), Nacking(FirstAgain(op.stream, s.frameNo)))
  }

  /** Nothing waits, and there is room for this send besides nothing of its number. */
  ghost predicate Roomy(cfg: Config, s: State, log: seq<Sent>, op: Op)
    requires cfg.Valid() && Accepted(cfg, op)
  {
    && Sound(s.store, log) && s.store.queue == [] && cfg.retentionMs > 0
    && JobSize(OpJob(cfg, s, op)) <= cfg.maxBytes
    && forall key <- s.store.buffer :: s.store.buffer[key].frameNo != s.frameNo
  }

  /** What the next send finds then: the first fragment is held and is the only request. */
  lemma FirstWaits(cfg: Config, s: State, log: seq<Sent>, op: Op)
    requires cfg.Valid() && Accepted(cfg, op) && Roomy(cfg, s, log, op)
    ensures var prior, st := OpJob(cfg, s, op), Evicted(cfg, AskedAgain(cfg, s, op), op.now);
      && st.queue != [] && st.Live(st.queue[0]) && st.buffer[st.queue[0].key].data == Frame(prior, 0)
  {
    var prior, u, v := OpJob(cfg, s, op), Apply(cfg, s, op).store, AskedAgain(cfg, s, op).store;
    assert prior.stream == op.stream && prior.frameNo == s.frameNo;
    SendQueuesNothing(cfg, s, op);
    AskedIs(cfg, s, op);
    FramesListed(prior);
    var more := ApplySound(cfg, s, log, op);
    var xs := FramesOf(prior);
    FirstFrame(prior);
    hide Sound, OpJob, Agree, Apply, Accepted, Kept, Evict, NackEffect, FirstAgain, SizeOf, Frame, FramesOf, Lists,
         Numbered;
    SoundAgrees(s.store, log);
    SendKeeps(cfg, s, log, op, xs);
    SoundAgrees(u, more);
    FirstHeld(u, s.frameNo, xs, op.now);
    OneWaits(u, more, op.stream, s.frameNo);
    KeptSame(u, v, s.frameNo, xs, |xs|, op.now);
    WaitsOn(cfg, v, more, s.frameNo, xs, op.now);
  }

  lemma FirstFrame(job: Job)
    requires job.Valid()
    ensures |FramesOf(job)| == job.Of() + 1 && FramesOf(job)[0].data == Frame(job, 0)
      && FramesOf(job)[0].stream == job.stream
  {
    hide Frame;
  }

  lemma FirstHeld(st: Store, frameNo: Word16, xs: seq<Sent>, now: int)
    requires xs != [] && Kept(st, frameNo, xs, |xs|, now)
    ensures Key(frameNo, 0) in st.buffer
    ensures st.buffer[Key(frameNo, 0)].stream == xs[0].stream && st.buffer[Key(frameNo, 0)].data == xs[0].data
  {
    assert KeptAt(st, xs, |xs|, 0, now);
  }

  lemma AskedIs(cfg: Config, s: State, op: Op)
    requires cfg.Valid() && Accepted(cfg, op)
    ensures AskedAgain(cfg, s, op).store == NackEffect(Apply(cfg, s, op).store, FirstAgain(op.stream, s.frameNo)).0
  {
    hide NackEffect, FirstAgain, Send;
  }

  lemma WaitsOn(cfg: Config, st: Store, log: seq<Sent>, frameNo: Word16, xs: seq<Sent>, now: int)
    requires Agree(st, log) && xs != [] && Kept(st, frameNo, xs, |xs|, now) && SizeOf(xs, |xs|) <= cfg.maxBytes
    requires Key(frameNo, 0) in st.buffer
    requires st.queue == [Ticket(Key(frameNo, 0), st.buffer[Key(frameNo, 0)].generation)]
    ensures var u := Evict(LimitsOf(cfg), st, now, 0);
      && u.queue == st.queue && u.Live(u.queue[0]) && u.buffer[u.queue[0].key].data == xs[0].data
  {
    var lim := LimitsOf(cfg);
    hide Agree, Newest, Evict, SizeOf;
    EvictKeepsNewest(lim, st, log, xs, |xs|, now, 0);
    EvictClean(lim, st, log, frameNo, xs, now, 0);
    FirstHeld(Evict(lim, st, now, 0), frameNo, xs, now);
    EvictKeepsQueue(lim, st, now, 0);
    EvictMakesRoom(lim, st, log, now, 0, Key(frameNo, 0));
  }

  // ----- the receiver -----

  lemma {:induction false} MembersTable(cfg: Settings, s: Receiver, ps: seq<Packet>, source: Byte, now: int)
    requires s.TableOk()
    ensures Members(cfg, s, ps, source, now).0.TableOk()
    decreases |ps|
  {
    TableIsSized(s);
    hide Handle, Receiver.TableOk;
    if ps != [] {
      HandleKeepsTable(cfg, s, ps[0], source, now);
      MembersTable(cfg, Handle(cfg, s, ps[0], source, now).0, ps[1..], source, now);
    }
  }

  /** All fragments of a frame come in, one after the other, and the receiver sweeps. */
  function AllIn(cfg: Settings, s: Receiver, job: Job, source: Byte, now: int, delay: int -> int): (t: Receiver)
    requires s.TableOk() && job.Valid()
    ensures t.TableOk()
  {
    MembersTable(cfg, s, Fragments(job, 0, job.Of() + 1), source, now);
    Sweep(cfg, Members(cfg, s, Fragments(job, 0, job.Of() + 1), source, now).0, now, delay)
  }

  /** Delivered, and its number unwraps to the order of its free slot. */
  lemma AllInDelivers(cfg: Settings, s: Receiver, job: Job, source: Byte, now: int, delay: int -> int)
    requires Free(s, job) && OpensAt(job, 0)
    ensures s.TableOk() && job.Valid()
    ensures var t, order := AllIn(cfg, s, job, source, now, delay), NextOrder(s, job.frameNo);
      && Having(t.delivered, order) == Having(s.delivered, order) + [Expected(job, source, order)]
      && !t.buckets[t.Index(job.frameNo)].active && NextOrder(t, job.frameNo) == t.buckets[t.Index(job.frameNo)].order
  {
    hide Members, Fragments, Sweep, Having, Expected, NextOrder, LastOpened, Follows, Upto, Receiver.TableOk, Good,
         Free, Job.Valid;
    FreeValid(s, job);
    var order := NextOrder(s, job.frameNo);
    OpensMembers(cfg, s, job, source, 0, job.Of() + 1, now);
    var t := Members(cfg, s, Fragments(job, 0, job.Of() + 1), source, now).0;
    FollowsValid(cfg, t, job, source, order, now, Gains(Collecting({}), 0, job.Of() + 1));
    EverythingIn(job);
    SweepsAll(cfg, t, job, source, order, now, now, delay);
    SweepLast(cfg, t, job.frameNo, order, now, delay);
    LastUnwraps(Sweep(cfg, t, now, delay), job.frameNo, order);
  }

  lemma EverythingIn(job: Job)
    ensures Gains(Collecting({}), 0, job.Of() + 1) == Collecting(Upto(job.Of() + 1))
  {
    assert {} + (Upto(job.Of() + 1) - Upto(0)) == Upto(job.Of() + 1);
  }

  lemma SweepsAll(cfg: Settings, t: Receiver, job: Job, source: Byte, order: int, start: int, now: int,
                  delay: int -> int)
    requires Follows(cfg, t, job, source, order, start, Collecting(Upto(job.Of() + 1)))
    ensures t.TableOk()
    ensures var u := Sweep(cfg, t, now, delay);
      && Having(u.delivered, order) == Having(t.delivered, order) + [Expected(job, source, order)]
      && !u.buckets[u.Index(job.frameNo)].active && u.buckets[u.Index(job.frameNo)].order == order
  {
    hide Sweep, Having, Expected, StartedAt, Collects, Upto, Good, Receiver.BucketsOk, Receiver.Pending,
         Receiver.Listed, Job.Valid;
    var b := t.buckets[t.Index(job.frameNo)];
    FollowsValid(cfg, t, job, source, order, start, Collecting(Upto(job.Of() + 1)));
    UnderOrder(b, job, source, order);
    CompleteFrame(b, job, source, order);
    SweepStep(cfg, t, job, source, order, Collecting(Upto(job.Of() + 1)), now, delay);
    SweepBucket(cfg, t, now, delay, t.Index(job.frameNo));
  }

  lemma UnderOrder(b: Bucket, job: Job, source: Byte, order: int)
    requires Collects(b, job, source, order)
    ensures b.active && b.order == order
  {
  }

  /** A bundle with a fragment of a delivered frame in front: nothing of it is taken in. */
  lemma TooOldFront(scfg: Config, cfg: Settings, s: Receiver, prior: Job, k: nat, job: Job, p: Pass, source: Byte,
                    now: int)
    requires s.TableOk() && Good(prior) && k < prior.cut.type1s
    requires !s.buckets[s.Index(prior.frameNo)].active && NextOrder(s, prior.frameNo)
      == s.buckets[s.Index(prior.frameNo)].order
    requires scfg.Valid() && !scfg.mode.Single? && job.Valid() && job.f == scfg.Type1Size() && Fits(scfg, job, p)
    requires p.retransmit == [Frame(prior, k)]
    ensures Wrappable(job, p) && Lost(cfg, s, p.retransmit, source, now)
    ensures var (t, r) := Dispatch(cfg, s, Wrapper(job, p).bytes, source, now);
      r == FragmentTooOld && t.buckets == s.buckets && t.delivered == s.delivered
  {
    DecodeEncode(prior.Fragment(k));
    LateDuplicate(cfg, s, prior, k, source, now);
    hide Handle, Encode, Decode, Dispatch, Wrapper, Fits, Good, NextOrder, Receiver.TableOk, Job.Valid;
    BundleWithRetransmit(scfg, cfg, s, job, p, source, now);
  }

  // ----- both -----

  /** A frame is sent and delivered; a late request for its first fragment reaches the sender; the next frame
      is sent. The receiver ends the first bundle of that frame with FRAGMENT_TOO_OLD, and the new fragments
      in it are lost though no packet was. */
  lemma NewFragmentsLost(scfg: Config, s: State, log: seq<Sent>, op: Op, next: Op, cfg: Settings, r: Receiver,
                         source: Byte, at: int, delay: int -> int)
    requires scfg.Valid() && !scfg.mode.Single? && Accepted(scfg, op) && Accepted(scfg, next) && op.now == next.now
    requires Roomy(scfg, s, log, op) && OpJob(scfg, s, op).cut.type1s >= 1
    requires OpJob(scfg, AskedAgain(scfg, s, op), next).cut.type1s >= 2
    requires Free(r, OpJob(scfg, s, op)) && r.TableOk() && OpensAt(OpJob(scfg, s, op), 0)
    ensures var prior, job := OpJob(scfg, s, op), OpJob(scfg, AskedAgain(scfg, s, op), next);
      var passes := Passes(scfg, Evicted(scfg, AskedAgain(scfg, s, op), next.now), job, 0, next.now).1;
      var t, order := AllIn(cfg, r, prior, source, at, delay), NextOrder(r, prior.frameNo);
      && Having(t.delivered, order) == Having(r.delivered, order) + [Expected(prior, source, order)]
      && passes != [] && passes[0].lo < passes[0].hi && Wrappable(job, passes[0])
      && var (u, result) := Dispatch(cfg, t, Wrapper(job, passes[0]).bytes, source, at);
         result == FragmentTooOld && u.buckets == t.buckets && u.delivered == t.delivered
  {
    var prior, job := OpJob(scfg, s, op), OpJob(scfg, AskedAgain(scfg, s, op), next);
    var st := Evicted(scfg, AskedAgain(scfg, s, op), next.now);
    FirstWaits(scfg, s, log, op);
    AllInDelivers(cfg, r, prior, source, at, delay);
    FreeValid(r, prior);
    assert prior.f == job.f == scfg.Type1Size();
    hide Roomy, OpJob, AskedAgain, Evicted, Passes, Dispatch, Wrapper, AllIn, Free, Having, Expected, NextOrder, Good,
         Accepted, Receiver.TableOk, Job.Valid, Frame;
    Type1FrameSize(prior, 0);
    OldestLeads(scfg, st, job, next.now);
    TooOldFront(scfg, cfg, AllIn(cfg, r, prior, source, at, delay), prior, 0, job,
                Passes(scfg, st, job, 0, next.now).1[0], source, at);
  }

  lemma {:induction false} SizeBound(xs: seq<Sent>, mtu: nat, n: nat)
    requires n <= |xs| && forall k | 0 <= k < |xs| :: |xs[k].data| <= mtu
    ensures SizeOf(xs, n) <= Slot(mtu, n)
  {
    if n > 0 { SizeBound(xs, mtu, n - 1); }
  }

  lemma JobSizeBound(job: Job, mtu: nat)
    requires FramesFit(job, mtu) && job.Valid()
    ensures JobSize(job) <= Slot(mtu, job.Of() + 1)
  {
    hide Frame, Job.Valid;
    SizeBound(FramesOf(job), mtu, job.Of() + 1);
  }

  lemma FiveFragments(scfg: Config, s: State, op: Op)
    requires scfg.mtu == 256 && scfg.mode.Half? && op.Sending? && |op.data| == 500
    ensures scfg.Valid() && Accepted(scfg, op)
    ensures var job := OpJob(scfg, s, op);
      job.cut == Cut(4, 0, 24) && Good(job) && OpensAt(job, 0) && JobSize(job) <= 1280 && job.frameNo == s.frameNo
  {
    CutUnique(500, 119, 229, Cut(4, 0, 24)) by { SlotIsProduct(119, 4); }
    var job := OpJob(scfg, s, op);
    SmallMtuWithinLimit(scfg, job);
    DtsRoundTrip(op.pts, op.dts);
    hide JobSize, FramesFit, CutOf;
    JobSizeBound(job, 256);
    SlotIsProduct(256, 5);
  }

  lemma EmptyRoomy(scfg: Config, op: Op)
    requires scfg.Valid() && Accepted(scfg, op) && scfg.retentionMs > 0
    requires var job := OpJob(scfg, State(0, EMPTY, []), op); JobSize(job) <= scfg.maxBytes
    ensures Roomy(scfg, State(0, EMPTY, []), [], op)
  {
    EmptyAgrees();
    hide JobSize, OpJob, Accepted, Agree, FramesFit;
  }

  /** For example: HALF mode, MTU 256, two payloads of 500 bytes, room for 1280, and both ends new. */
  lemma LossHappens(scfg: Config, op: Op, next: Op, n: nat)
    requires scfg.mtu == 256 && scfg.mode.Half? && scfg.retentionMs > 0 && scfg.maxBytes >= 1280
    requires op.Sending? && next.Sending? && |op.data| == |next.data| == 500 && 0 < n && 0x1_0000 % n == 0
    ensures scfg.Valid() && Accepted(scfg, op) && Accepted(scfg, next)
    ensures var s := State(0, EMPTY, []);
      && Roomy(scfg, s, [], op) && OpJob(scfg, s, op).cut.type1s >= 1
      && OpJob(scfg, AskedAgain(scfg, s, op), next).cut.type1s >= 2 && Free(Initial(n), OpJob(scfg, s, op))
      && OpensAt(OpJob(scfg, s, op), 0)
  {
    var s := State(0, EMPTY, []);
    hide AskedAgain, JobSize, OpJob, Accepted, Good, Free, Roomy, FramesFit, Initial;
    FiveFragments(scfg, s, op);
    EmptyRoomy(scfg, op);
    FiveFragments(scfg, AskedAgain(scfg, s, op), next);
    InitialFree(n, OpJob(scfg, s, op));
  }

  // ----- a front that is not Type1 -----

  lemma OneFragment(scfg: Config, s: State, op: Op)
    requires scfg.mtu == 256 && scfg.mode.Half? && op.Sending? && |op.data| == 100
    ensures scfg.Valid() && Accepted(scfg, op)
    ensures var job := OpJob(scfg, s, op);
      && job.Of() == 0 && |Frame(job, 0)| == 127 && GetFrameType(Frame(job, 0)[0]) == 2
         && JobSize(job) == 127
  {
    var job := OpJob(scfg, s, op);
    DecodeEncode(job.Fragment(0));
    hide Encode;
    assert FramesOf(job)[0].data == Frame(job, 0);
    assert JobSize(job) == SizeOf(FramesOf(job), 0) + |Frame(job, 0)|;
  }

  /** HALF mode, MTU 256: a payload of 100 bytes leaves as a Type2 frame of 127, which is also the size of a
      bundled Type1 frame. Asked for again, it is the first member of the first bundle of the next payload. */
  lemma Type2InBundle(scfg: Config, op: Op, next: Op)
    requires scfg.mtu == 256 && scfg.mode.Half? && scfg.retentionMs > 0 && scfg.maxBytes >= 127
    requires op.Sending? && next.Sending? && |op.data| == 100 && |next.data| == 500 && op.now == next.now
    ensures scfg.Valid() && Accepted(scfg, op) && Accepted(scfg, next)
    ensures var s := AskedAgain(scfg, State(0, EMPTY, []), op);
      var job := OpJob(scfg, s, next);
      var passes := Passes(scfg, Evicted(scfg, s, next.now), job, 0, next.now).1;
      && passes != [] && passes[0].lo <= passes[0].hi <= job.Of() + 1
      && MembersOf(job, passes[0]) != [] && MembersOf(job, passes[0])[0] != []
      && GetFrameType(MembersOf(job, passes[0])[0][0]) == 2
  {
    var s0 := State(0, EMPTY, []);
    hide AskedAgain, JobSize, OpJob, Accepted, Good, Roomy, FramesFit, Evicted, Frame, Passes;
    OneFragment(scfg, s0, op);
    var s := AskedAgain(scfg, s0, op);
    FiveFragments(scfg, s, next);
    EmptyRoomy(scfg, op);
    FirstWaits(scfg, s0, [], op);
    OldestSpoils(scfg, Evicted(scfg, s, next.now), OpJob(scfg, s, next), next.now);
  }
}
