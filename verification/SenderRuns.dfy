/** What runs of the whole sender keep: the retention structures agree with each other and with what was
    emitted, every retransmit repeats what was sent under its own generation, and the limits hold. */
module SenderRuns {
  import opened Wire
  import opened Fragmenter
  import opened NackRanges
  import opened Results
  import opened Retention
  import opened RetentionRuns
  import opened RetentionLimits
  import opened SenderSpec
  import opened Retransmits
  import opened OnTheWire

  /** The bytes are a fragment frame of the key and stream they are kept under. */
  predicate Keyed(x: Sent) {
    Readable(x.data) && var p := Decode(x.data);
    p.stream == x.stream && 0 <= FragmentNoOf(p) <= UINT16_MAX && x.key == Key(p.frameNo, FragmentNoOf(p))
  }

  ghost predicate Sound(st: Store, log: seq<Sent>) { Agree(st, log) && forall x <- log :: Keyed(x) }

  lemma SoundAgrees(st: Store, log: seq<Sent>)
    requires Sound(st, log)
    ensures Agree(st, log)
  {
    hide Agree;
  }

  /** Moreover the bytes held exceed the limit by no more than one packet, and the entries are in the order of
      their times, none later than the clock. */
  ghost predicate Steady(lim: Limits, st: Store, log: seq<Sent>, mtu: nat, clock: int) {
    Sound(st, log) && st.bytes <= lim.maxBytes + mtu && Aged(st, clock)
  }

  /** No entry is older than the retention time. */
  ghost predicate Fresh(lim: Limits, st: Store, now: int) {
    forall key <- st.buffer :: st.buffer[key].timeUs >= now - 1000 * lim.retentionMs
  }

  predicate FramesFit(job: Job, mtu: nat) {
    job.Valid() && forall k | 0 <= k <= job.Of() :: |Frame(job, k)| <= mtu
  }

  lemma FrameKeyed(job: Job, k: nat)
    requires job.Valid() && k <= job.Of()
    ensures Keyed(Sent(Key(job.frameNo, k), job.stream, Frame(job, k)))
  {
    FragmentNumbers(job, k);
    DecodeEncode(job.Fragment(k));
    hide Encode, Decode;
  }

  lemma LaterClock(st: Store, clock: int, now: int)
    requires Aged(st, clock) && clock <= now
    ensures Aged(st, now)
  {
    hide InTimeOrder;
  }

  // ----- one fragment, one eviction, one answer -----

  lemma RetainWithin(lim: Limits, st: Store, log: seq<Sent>, frameNo: Word16, fragmentNo: Word16, stream: Byte,
                     data: seq<Byte>, now: int, mtu: nat)
    requires Agree(st, log) && |data| <= mtu && st.bytes <= lim.maxBytes + mtu
    ensures Retain(lim, st, frameNo, fragmentNo, stream, data, now).bytes <= lim.maxBytes + mtu
  {
    if Retains(lim, |data|) { RetainLimit(lim, st, log, frameNo, fragmentNo, stream, data, now); }
    hide Agree, Evict, SizeAt, Put;
  }

  lemma RetainFresh(lim: Limits, st: Store, log: seq<Sent>, clock: int, frameNo: Word16, fragmentNo: Word16,
                    stream: Byte, data: seq<Byte>, now: int)
    requires Agree(st, log) && Aged(st, clock) && Fresh(lim, st, now)
    ensures Fresh(lim, Retain(lim, st, frameNo, fragmentNo, stream, data, now), now)
  {
    if Retains(lim, |data|) {
      EvictLeavesFresh(lim, st, log, clock, now, Required(st, Key(frameNo, fragmentNo), |data|));
    }
    hide Agree, Aged, Evict;
  }

  lemma EvictSteady(lim: Limits, st: Store, log: seq<Sent>, now: int, mtu: nat, clock: int)
    requires Steady(lim, st, log, mtu, clock)
    ensures Steady(lim, Evict(lim, st, now, 0), log, mtu, clock) && Fresh(lim, Evict(lim, st, now, 0), now)
  {
    EvictAgrees(lim, st, now, 0, log);
    EvictMakesRoom(lim, st, log, now, 0, Key(0, 0));
    EvictLeavesFresh(lim, st, log, clock, now, 0);
    hide Agree, Evict, Aged;
  }

  lemma RetainSteady(lim: Limits, st: Store, log: seq<Sent>, job: Job, k: nat, now: int, mtu: nat, clock: int)
    requires Steady(lim, st, log, mtu, clock) && FramesFit(job, mtu) && k <= job.Of() && clock <= now
    ensures var u := Retain(lim, st, job.frameNo, k, job.stream, Frame(job, k), now);
      && Steady(lim, u, LogAfter(lim, log, job.frameNo, k, job.stream, Frame(job, k)), mtu, now)
      && (Fresh(lim, st, now) ==> Fresh(lim, u, now))
  {
    RetainAgrees(lim, st, log, job.frameNo, k, job.stream, Frame(job, k), now);
    RetainWithin(lim, st, log, job.frameNo, k, job.stream, Frame(job, k), now, mtu);
    RetainAged(lim, st, log, clock, job.frameNo, k, job.stream, Frame(job, k), now);
    if Fresh(lim, st, now) { RetainFresh(lim, st, log, clock, job.frameNo, k, job.stream, Frame(job, k), now); }
    FrameKeyed(job, k);
    hide Agree, Retain, Frame, Keyed, Aged, Fresh;
  }

  lemma PopSteady(lim: Limits, st: Store, log: seq<Sent>, mtu: nat, clock: int)
    requires Steady(lim, st, log, mtu, clock) && st.queue != []
    ensures Steady(lim, Pop(st).0, log, mtu, clock)
    ensures forall now :: Fresh(lim, st, now) ==> Fresh(lim, Pop(st).0, now)
  {
    PopAgrees(st, log);
    PopAged(st, clock);
    hide Agree, Keyed, Aged;
  }

  lemma PopAged(st: Store, clock: int)
    requires Aged(st, clock) && st.queue != []
    ensures Aged(Pop(st).0, clock)
  {
  }

  // ----- replies -----

  /** The reply repeats what was sent under the generation of its request. */
  predicate Repeats(log: seq<Sent>, r: Reply) {
    1 <= r.ticket.generation <= |log| && log[r.ticket.generation - 1] == Sent(r.ticket.key, r.stream, r.data)
  }

  predicate AllRepeat(log: seq<Sent>, replies: seq<Reply>) { forall k | 0 <= k < |replies| :: Repeats(log, replies[k]) }

  lemma PopRepeats(st: Store, log: seq<Sent>, more: seq<Sent>)
    requires Agree(st, log) && st.queue != [] && log <= more
    ensures AllRepeat(more, PopReply(st))
  {
    if Pop(st).1.Retransmit? { AnswerIsOwn(st, log); }
  }

  lemma JoinRepeats(log: seq<Sent>, more: seq<Sent>, a: seq<Reply>, b: seq<Reply>)
    requires AllRepeat(log, a) && log <= more && AllRepeat(more, b)
    ensures AllRepeat(more, a + b)
  {
    forall k | 0 <= k < |a + b| ensures Repeats(more, (a + b)[k]) {
      if k < |a| { assert Repeats(log, a[k]); } else { assert Repeats(more, b[k - |a|]); }
    }
  }

  // ----- the frames of one job -----

  lemma FitsValid(job: Job, mtu: nat)
    requires FramesFit(job, mtu)
    ensures job.Valid() && job.Of() < MAX_FRAGMENTS
  {
    hide Frame;
  }

  lemma {:induction false} FramesSteady(lim: Limits, st: Store, log: seq<Sent>, job: Job, lo: nat, hi: nat, now: int,
                                        mtu: nat, clock: int)
    requires Steady(lim, st, log, mtu, clock) && FramesFit(job, mtu) && lo <= hi <= job.Of() + 1 && clock <= now
    ensures var u := RetainFrames(lim, st, job, lo, hi, now);
      && Steady(lim, u, log + FramesLog(lim, job, lo, hi), mtu, now)
      && (Fresh(lim, st, now) ==> Fresh(lim, u, now))
    decreases hi - lo
  {
    hide Steady, Retain, Frame, LogAfter, FramesFit, Job.Valid, Fresh, RetainFrames, FramesLog;
    FitsValid(job, mtu);
    if lo == hi {
      NoFrames(lim, st, job, hi, now, log);
      SteadyLater(lim, st, log, mtu, clock, now);
    } else {
      RetainSteady(lim, st, log, job, lo, now, mtu, clock);
      RetainStep(lim, st, job, lo, hi, now);
      FramesLogStep(lim, job, lo, hi, log);
      FramesSteady(lim, Retain(lim, st, job.frameNo, lo, job.stream, Frame(job, lo), now),
                   LogAfter(lim, log, job.frameNo, lo, job.stream, Frame(job, lo)), job, lo + 1, hi, now, mtu, now);
    }
  }

  lemma SteadyLater(lim: Limits, st: Store, log: seq<Sent>, mtu: nat, clock: int, now: int)
    requires Steady(lim, st, log, mtu, clock) && clock <= now
    ensures Steady(lim, st, log, mtu, now)
  {
    LaterClock(st, clock, now);
    hide Aged, Sound;
  }

  lemma {:induction false} FramesLogJoin(lim: Limits, job: Job, lo: nat, mid: nat, hi: nat)
    requires job.Valid() && lo <= mid <= hi <= job.Of() + 1
    ensures FramesLog(lim, job, lo, mid) + FramesLog(lim, job, mid, hi) == FramesLog(lim, job, lo, hi)
    decreases mid - lo
  {
    hide Frame, LogAfter, Job.Valid;
    FewFragments(job);
    if lo == mid {
      assert [] + FramesLog(lim, job, mid, hi) == FramesLog(lim, job, mid, hi);
    } else {
      FramesLogJoin(lim, job, lo + 1, mid, hi);
      Associative(LogAfter(lim, [], job.frameNo, lo, job.stream, Frame(job, lo)), FramesLog(lim, job, lo + 1, mid),
                  FramesLog(lim, job, mid, hi));
    }
  }

  /** The replies of all passes, in order. */
  function PassReplies(cfg: Config, st: Store, job: Job, lo: nat, now: int): seq<Reply>
    requires cfg.Valid() && job.Valid() && lo <= job.cut.type1s
  {
    Concat(Groups(cfg, st, job, lo, now))
  }

  function Concat(groups: seq<seq<Reply>>): seq<Reply> { if groups == [] then [] else groups[0] + Concat(groups[1..]) }

  lemma {:induction false} PassesSteady(cfg: Config, st: Store, log: seq<Sent>, job: Job, lo: nat, now: int, clock: int)
    requires cfg.Valid() && Steady(LimitsOf(cfg), st, log, cfg.mtu, clock) && FramesFit(job, cfg.mtu) && clock <= now
    requires lo <= job.cut.type1s
    ensures var u, lim := Passes(cfg, st, job, lo, now).0, LimitsOf(cfg);
      var more := log + FramesLog(lim, job, lo, job.cut.type1s);
      && Steady(lim, u, more, cfg.mtu, now) && (Fresh(lim, st, now) ==> Fresh(lim, u, now))
      && AllRepeat(more, PassReplies(cfg, st, job, lo, now))
    decreases job.cut.type1s - lo
  {
    assert job.Valid() && job.cut.type1s <= job.Of();
    var lim := LimitsOf(cfg);
    hide Steady, FramesFit, RetainFrames, Fresh, AllRepeat, Job.Valid;
    if lo == job.cut.type1s {
      NoFrames(lim, st, job, lo, now, log);
      SteadyLater(lim, st, log, cfg.mtu, clock, now);
      NoReplies(log);
    } else {
      var (u, p) := OnePass(cfg, st, job, lo, now);
      PassSteady(cfg, st, log, job, lo, now, clock);
      var next := log + FramesLog(lim, job, lo, p.hi);
      PassesSteady(cfg, u, next, job, p.hi, now, now);
      FramesLogJoin(lim, job, lo, p.hi, job.cut.type1s);
      Associative(log, FramesLog(lim, job, lo, p.hi), FramesLog(lim, job, p.hi, job.cut.type1s));
      assert Groups(cfg, st, job, lo, now)[1..] == Groups(cfg, u, job, p.hi, now);
      JoinRepeats(next, next + FramesLog(lim, job, p.hi, job.cut.type1s), PassReply(cfg, st, job, lo),
                  PassReplies(cfg, u, job, p.hi, now));
    }
  }

  lemma NoReplies(log: seq<Sent>)
    ensures AllRepeat(log, Concat([]))
  {
  }

  lemma PassSteady(cfg: Config, st: Store, log: seq<Sent>, job: Job, lo: nat, now: int, clock: int)
    requires cfg.Valid() && Steady(LimitsOf(cfg), st, log, cfg.mtu, clock) && FramesFit(job, cfg.mtu) && clock <= now
    requires lo < job.cut.type1s
    ensures var (u, p) := OnePass(cfg, st, job, lo, now);
      var next := log + FramesLog(LimitsOf(cfg), job, lo, p.hi);
      && Steady(LimitsOf(cfg), u, next, cfg.mtu, now)
      && (Fresh(LimitsOf(cfg), st, now) ==> Fresh(LimitsOf(cfg), u, now))
      && AllRepeat(next, PassReply(cfg, st, job, lo))
  {
    var lim, mid, p := LimitsOf(cfg), AfterAsk(cfg, st, job, lo), OnePass(cfg, st, job, lo, now).1;
    OnePassIs(cfg, st, job, lo, now);
    if Asks(cfg, st, job, lo) {
      PopSteady(lim, st, log, cfg.mtu, clock);
      PopRepeats(st, log, log + FramesLog(lim, job, lo, p.hi));
    }
    hide Agree, Aged, FramesFit, RetainFrames, FramesLog, OnePass, Fresh, Keyed;
    FramesSteady(lim, mid, log, job, lo, p.hi, now, cfg.mtu, clock);
  }

  // ----- one send -----

  function JobReplies(cfg: Config, st: Store, job: Job, now: int): seq<Reply>
    requires cfg.Valid() && job.Valid()
  {
    if cfg.mode.Single? || job.Of() == 0 then [] else PassReplies(cfg, st, job, 0, now)
  }

  lemma SendJobSteady(cfg: Config, st: Store, log: seq<Sent>, job: Job, now: int, clock: int)
    requires cfg.Valid() && Steady(LimitsOf(cfg), st, log, cfg.mtu, clock) && FramesFit(job, cfg.mtu) && clock <= now
    ensures var u, more := SendJob(cfg, st, job, now).0, log + FramesLog(LimitsOf(cfg), job, 0, job.Of() + 1);
      && Steady(LimitsOf(cfg), u, more, cfg.mtu, now)
      && (Fresh(LimitsOf(cfg), st, now) ==> Fresh(LimitsOf(cfg), u, now))
      && AllRepeat(more, JobReplies(cfg, st, job, now))
  {
    var lim, n, of := LimitsOf(cfg), job.cut.type1s, job.Of();
    assert job.Valid() && n <= of;
    SendJobIs(cfg, st, job, now);
    hide Steady, FramesFit, RetainFrames, Alone, Wrappers, Job.Valid, Fresh, AllRepeat, SendJob, Passes, FramesLog,
         PassReplies;
    if cfg.mode.Single? || of == 0 {
      FramesSteady(lim, st, log, job, 0, of + 1, now, cfg.mtu, clock);
      NoReplies(log + FramesLog(lim, job, 0, of + 1));
    } else {
      PassesSteady(cfg, st, log, job, 0, now, clock);
      RestSteady(cfg, Passes(cfg, st, job, 0, now).0, log, job, now, PassReplies(cfg, st, job, 0, now));
    }
  }

  /** The frames behind the bundles. */
  lemma RestSteady(cfg: Config, u: Store, log: seq<Sent>, job: Job, now: int, replies: seq<Reply>)
    requires cfg.Valid() && FramesFit(job, cfg.mtu)
    requires var next := log + FramesLog(LimitsOf(cfg), job, 0, job.cut.type1s);
      Steady(LimitsOf(cfg), u, next, cfg.mtu, now) && AllRepeat(next, replies)
    ensures var v := RetainFrames(LimitsOf(cfg), u, job, job.cut.type1s, job.Of() + 1, now);
      var more := log + FramesLog(LimitsOf(cfg), job, 0, job.Of() + 1);
      && Steady(LimitsOf(cfg), v, more, cfg.mtu, now) && AllRepeat(more, replies)
      && (Fresh(LimitsOf(cfg), u, now) ==> Fresh(LimitsOf(cfg), v, now))
  {
    var lim, n, of := LimitsOf(cfg), job.cut.type1s, job.Of();
    var next := log + FramesLog(lim, job, 0, n);
    assert job.Valid() && n <= of;
    hide Steady, FramesFit, RetainFrames, Job.Valid, Fresh, AllRepeat, FramesLog;
    FramesSteady(lim, u, next, job, n, of + 1, now, cfg.mtu, now);
    MoreRepeats(next, FramesLog(lim, job, n, of + 1), replies);
    WholeLog(lim, job, n, log);
  }

  lemma WholeLog(lim: Limits, job: Job, n: nat, log: seq<Sent>)
    requires job.Valid() && n <= job.Of() + 1
    ensures log + FramesLog(lim, job, 0, n) + FramesLog(lim, job, n, job.Of() + 1)
      == log + FramesLog(lim, job, 0, job.Of() + 1)
  {
    FramesLogJoin(lim, job, 0, n, job.Of() + 1);
    Associative(log, FramesLog(lim, job, 0, n), FramesLog(lim, job, n, job.Of() + 1));
    hide FramesLog, Job.Valid;
  }

  lemma MoreRepeats(log: seq<Sent>, tail: seq<Sent>, replies: seq<Reply>)
    requires AllRepeat(log, replies)
    ensures AllRepeat(log + tail, replies)
  {
    forall k | 0 <= k < |replies| ensures Repeats(log + tail, replies[k]) { assert Repeats(log, replies[k]); }
  }

  // ----- the history and the wire -----

  /** Everything in the history was emitted on its stream, alone or in a bundle. */
  ghost predicate Tied(sent: seq<Emission>, log: seq<Sent>) {
    forall i | 0 <= i < |log| :: Occurs(sent, log[i].data, log[i].stream)
  }

  lemma {:induction false} FramesTied(cfg: Config, st: Store, job: Job, now: int, lo: nat)
    requires cfg.Valid() && job.Valid() && (job.Of() > 0 ==> job.f == cfg.Type1Size()) && lo <= job.Of() + 1
    ensures Tied(SendJob(cfg, st, job, now).1, FramesLog(LimitsOf(cfg), job, lo, job.Of() + 1))
    decreases job.Of() + 1 - lo
  {
    hide SendJob, Frame, Occurs, Job.Valid, Config.Type1Size;
    if lo < job.Of() + 1 {
      JobOccurs(cfg, st, job, now, lo);
      FramesTied(cfg, st, job, now, lo + 1);
    }
  }

  lemma TiedNone(sent: seq<Emission>)
    ensures Tied(sent, [])
  {
  }

  lemma TiedJoin(sent: seq<Emission>, more: seq<Emission>, a: seq<Sent>, b: seq<Sent>)
    requires Tied(sent, a) && Tied(more, b)
    ensures Tied(sent + more, a + b)
  {
    hide Occurs;
    forall i | 0 <= i < |a + b| ensures Occurs(sent + more, (a + b)[i].data, (a + b)[i].stream) {
      if i < |a| {
        OccursWithin([], sent, more, a[i].data, a[i].stream);
        assert [] + sent + more == sent + more;
      } else {
        OccursWithin(sent, more, [], b[i - |a|].data, b[i - |a|].stream);
        assert sent + more + [] == sent + more;
      }
    }
  }

  // ----- runs -----

  datatype Op =
    | Sending(data: seq<Byte>, payloadType: Byte, pts: Word64, dts: Word64, code: Word32, stream: Byte, flags: Byte,
              now: int)
    | Nacking(message: seq<Byte>)
    | Draining(limit: nat)

  function Apply(cfg: Config, s: State, op: Op): State
    requires cfg.Valid()
  {
    match op
    case Sending(data, payloadType, pts, dts, code, stream, flags, now) =>
      Send(cfg, s, data, payloadType, pts, dts, code, stream, flags, now).0
    case Nacking(message) => s.(store := NackEffect(s.store, message).0)
    case Draining(limit) =>
      DrainAnswers(s.store, limit);
      State(s.frameNo, Drain(s.store, limit).0, s.sent + Emissions(Drain(s.store, limit).1))
  }

  predicate Accepted(cfg: Config, op: Op)
    requires cfg.Valid()
  {
    op.Sending? && op.data != [] && |op.data| <= MAX_SUPERFRAME_SIZE && !TooManyFragments(cfg, |op.data|)
  }

  function OpJob(cfg: Config, s: State, op: Op): (job: Job)
    requires cfg.Valid() && Accepted(cfg, op)
    ensures job.Valid() && FramesFit(job, cfg.mtu) && (job.Of() > 0 ==> job.f == cfg.Type1Size())
  {
    JobFits(cfg, op.data, op.payloadType, op.pts, op.dts, op.code, op.stream, op.flags, s.frameNo);
    JobOf(cfg, op.data, op.payloadType, op.pts, op.dts, op.code, op.stream, op.flags, s.frameNo)
  }

  function Evicted(cfg: Config, s: State, now: int): Store {
    if cfg.retentionMs > 0 then Evict(LimitsOf(cfg), s.store, now, 0) else s.store
  }

  /** What an operation adds to the history: the frames it retains, in fragment order. */
  function Adds(cfg: Config, s: State, op: Op): seq<Sent>
    requires cfg.Valid()
  {
    if !Accepted(cfg, op) then []
    else var job := OpJob(cfg, s, op); FramesLog(LimitsOf(cfg), job, 0, job.Of() + 1)
  }

  /** The requests an operation answers, and what it sends for them. */
  function Replies(cfg: Config, s: State, op: Op): seq<Reply>
    requires cfg.Valid()
  {
    if op.Draining? then DrainReplies(s.store, op.limit)
    else if Accepted(cfg, op) then JobReplies(cfg, Evicted(cfg, s, op.now), OpJob(cfg, s, op), op.now)
    else []
  }

  function Clock(clock: int, op: Op): int { if op.Sending? then op.now else clock }

  /** The clock does not go back. */
  predicate Forward(clock: int, ops: seq<Op>)
    decreases |ops|
  {
    ops == [] || (clock <= Clock(clock, ops[0]) && Forward(Clock(clock, ops[0]), ops[1..]))
  }

  function RunOps(cfg: Config, s: State, ops: seq<Op>): State
    requires cfg.Valid()
    decreases |ops|
  {
    if ops == [] then s else RunOps(cfg, Apply(cfg, s, ops[0]), ops[1..])
  }

  function History(cfg: Config, s: State, ops: seq<Op>): seq<Sent>
    requires cfg.Valid()
    decreases |ops|
  {
    if ops == [] then [] else Adds(cfg, s, ops[0]) + History(cfg, Apply(cfg, s, ops[0]), ops[1..])
  }

  function AllReplies(cfg: Config, s: State, ops: seq<Op>): seq<Reply>
    requires cfg.Valid()
    decreases |ops|
  {
    if ops == [] then [] else Replies(cfg, s, ops[0]) + AllReplies(cfg, Apply(cfg, s, ops[0]), ops[1..])
  }

  function LastClock(clock: int, ops: seq<Op>): int
    decreases |ops|
  {
    if ops == [] then clock else LastClock(Clock(clock, ops[0]), ops[1..])
  }

  /** The whole invariant of a sender. */
  ghost predicate Whole(cfg: Config, s: State, log: seq<Sent>, clock: int) {
    Steady(LimitsOf(cfg), s.store, log, cfg.mtu, clock) && Tied(s.sent, log)
  }

  lemma SendIs(cfg: Config, s: State, op: Op)
    requires cfg.Valid() && Accepted(cfg, op)
    ensures var job, st := OpJob(cfg, s, op), Evicted(cfg, s, op.now);
      Apply(cfg, s, op).store == SendJob(cfg, st, job, op.now).0
      && Apply(cfg, s, op).sent == s.sent + SendJob(cfg, st, job, op.now).1
  {
    hide SendJob, Evict, CutOf, DtsPtsDiff, GetFlags, Encode;
  }

  lemma RefusedIs(cfg: Config, s: State, op: Op)
    requires cfg.Valid() && op.Sending? && !Accepted(cfg, op)
    ensures Apply(cfg, s, op).sent == s.sent
    ensures Apply(cfg, s, op).store == s.store || Apply(cfg, s, op).store == Evicted(cfg, s, op.now)
    ensures op.data != [] && |op.data| <= MAX_SUPERFRAME_SIZE ==> Apply(cfg, s, op).store == Evicted(cfg, s, op.now)
  {
    hide SendJob, Evict, CutOf;
  }

  lemma EvictedSteady(cfg: Config, s: State, log: seq<Sent>, clock: int, now: int)
    requires Steady(LimitsOf(cfg), s.store, log, cfg.mtu, clock)
    ensures Steady(LimitsOf(cfg), Evicted(cfg, s, now), log, cfg.mtu, clock)
    ensures cfg.retentionMs > 0 ==> Fresh(LimitsOf(cfg), Evicted(cfg, s, now), now)
  {
    EvictSteady(LimitsOf(cfg), s.store, log, now, cfg.mtu, clock);
    hide Steady, Evict, Fresh;
  }

  /** One `send`, accepted or refused, whatever it retransmits on the way. */
  lemma SendSteady(cfg: Config, s: State, log: seq<Sent>, op: Op, clock: int)
    requires cfg.Valid() && Whole(cfg, s, log, clock) && op.Sending? && clock <= op.now
    ensures Whole(cfg, Apply(cfg, s, op), log + Adds(cfg, s, op), op.now)
    ensures AllRepeat(log + Adds(cfg, s, op), Replies(cfg, s, op))
    ensures cfg.retentionMs > 0 && op.data != [] && |op.data| <= MAX_SUPERFRAME_SIZE ==>
      Fresh(LimitsOf(cfg), Apply(cfg, s, op).store, op.now)
  {
    hide Steady, Apply, Evicted, Fresh, AllRepeat, Tied, OpJob, SendJob;
    EvictedSteady(cfg, s, log, clock, op.now);
    if Accepted(cfg, op) {
      SendIs(cfg, s, op);
      var job, st := OpJob(cfg, s, op), Evicted(cfg, s, op.now);
      hide Accepted;
      SendJobSteady(cfg, st, log, job, op.now, clock);
      FramesTied(cfg, st, job, op.now, 0);
      TiedJoin(s.sent, SendJob(cfg, st, job, op.now).1, log, FramesLog(LimitsOf(cfg), job, 0, job.Of() + 1));
    } else {
      RefusedIs(cfg, s, op);
      assert log + [] == log;
      SteadyLater(LimitsOf(cfg), s.store, log, cfg.mtu, clock, op.now);
      SteadyLater(LimitsOf(cfg), Evicted(cfg, s, op.now), log, cfg.mtu, clock, op.now);
      assert AllRepeat(log, []) by { NoReplies(log); }
    }
  }

  lemma {:induction false} RangeSame(st: Store, stream: Byte, frameNo: Word16, from: nat, n: nat)
    requires from + n <= 0x1_0000
    ensures var u := RequestRange(st, stream, frameNo, from, n);
      u.bytes == st.bytes && u.buffer == st.buffer && u.order == st.order
    decreases n
  {

    if n > 0 { RangeSame(Request(st, stream, Key(frameNo, from)), stream, frameNo, from + 1, n - 1); }
  }

  lemma {:induction false} EntriesSame(st: Store, entries: seq<NackEntry>)
    ensures var u := RequestEntries(st, entries).0; u.bytes == st.bytes && u.buffer == st.buffer && u.order == st.order
    decreases |entries|
  {
    hide RequestRange;
    if entries != [] && entries[0].fragmentNo + entries[0].extra as int <= UINT16_MAX {
      var e := entries[0];
      RangeSame(st, e.stream, e.frameNo, e.fragmentNo, e.extra as int + 1);
      EntriesSame(RequestRange(st, e.stream, e.frameNo, e.fragmentNo, e.extra as int + 1), entries[1..]);
    }
  }

  lemma NackSteady(cfg: Config, s: State, log: seq<Sent>, message: seq<Byte>, clock: int)
    requires Whole(cfg, s, log, clock)
    ensures Whole(cfg, s.(store := NackEffect(s.store, message).0), log, clock)
  {
    var st := s.store;
    hide Agree, Keyed, RequestEntries, NackEntriesFrom, InTimeOrder, Tied;
    if |message| >= 3 && |message| == 3 + 6 * (message[2] as nat) {
      EntriesAgree(st, log, NackEntriesFrom(message, 3, message[2] as nat));
      EntriesSame(st, NackEntriesFrom(message, 3, message[2] as nat));
    }
  }

  lemma {:induction false} DrainSteady(lim: Limits, st: Store, log: seq<Sent>, limit: nat, mtu: nat, clock: int)
    requires Steady(lim, st, log, mtu, clock)
    ensures Steady(lim, Drain(st, limit).0, log, mtu, clock) && AllRepeat(log, DrainReplies(st, limit))
    decreases |st.queue|
  {
    hide Steady, Pop, PopReply, AllRepeat, Drain, DrainReplies;
    if st.queue == [] || limit == 0 {
      DrainNone(st, limit, log);
    } else {
      DrainOne(lim, st, log, limit, mtu, clock);
      var u, left := Pop(st).0, limit - |PopReply(st)|;
      DrainSteady(lim, u, log, left, mtu, clock);
      JoinRepeats(log, log, PopReply(st), DrainReplies(u, left));
    }
  }

  lemma DrainNone(st: Store, limit: nat, log: seq<Sent>)
    requires st.queue == [] || limit == 0
    ensures Drain(st, limit).0 == st && DrainReplies(st, limit) == [] && AllRepeat(log, [])
  {
  }

  lemma DrainOne(lim: Limits, st: Store, log: seq<Sent>, limit: nat, mtu: nat, clock: int)
    requires Steady(lim, st, log, mtu, clock) && st.queue != [] && limit > 0
    ensures var u := Pop(st).0;
      && Steady(lim, u, log, mtu, clock) && AllRepeat(log, PopReply(st))
      && |u.queue| < |st.queue| && |PopReply(st)| <= limit
      && Drain(st, limit).0 == Drain(u, limit - |PopReply(st)|).0
      && DrainReplies(st, limit) == PopReply(st) + DrainReplies(u, limit - |PopReply(st)|)
  {
    hide AllRepeat, Aged, Keyed, Agree;
    PopSteady(lim, st, log, mtu, clock);
    PopRepeats(st, log, log);
  }

  lemma ApplySteady(cfg: Config, s: State, log: seq<Sent>, op: Op, clock: int)
    requires cfg.Valid() && Whole(cfg, s, log, clock) && clock <= Clock(clock, op)
    ensures Whole(cfg, Apply(cfg, s, op), log + Adds(cfg, s, op), Clock(clock, op))
    ensures AllRepeat(log + Adds(cfg, s, op), Replies(cfg, s, op))
  {
    hide Steady, Send, Drain, NackEffect, AllRepeat, Tied, DrainReplies;
    match op {
      case Sending(_, _, _, _, _, _, _, _) => SendSteady(cfg, s, log, op, clock);
      case Nacking(message) =>
        NackSteady(cfg, s, log, message, clock);
        assert log + [] == log;
        assert AllRepeat(log, []) by { NoReplies(log); }
      case Draining(limit) =>
        DrainSteady(LimitsOf(cfg), s.store, log, limit, cfg.mtu, clock);
        assert log + [] == log;
        DrainAnswers(s.store, limit);
        TiedNone(Emissions(Drain(s.store, limit).1));
        TiedJoin(s.sent, Emissions(Drain(s.store, limit).1), log, []);
    }
  }

  /** Over every run of send, receiveNack and processRetransmits with a clock that does not go back: the four
      structures agree with each other and with the history of what the run retained; all of that history was
      emitted; every retransmit, drained, bundled or sent between bundles, repeats the entry of its own
      generation; and the bytes held exceed the limit by no more than one MTU. */
  lemma {:induction false} RunSteady(cfg: Config, s: State, ops: seq<Op>, log: seq<Sent>, clock: int)
    requires cfg.Valid() && Whole(cfg, s, log, clock) && Forward(clock, ops)
    ensures Whole(cfg, RunOps(cfg, s, ops), log + History(cfg, s, ops), LastClock(clock, ops))
    ensures AllRepeat(log + History(cfg, s, ops), AllReplies(cfg, s, ops))
    decreases |ops|
  {
    hide Whole, Apply, Adds, Replies, AllRepeat, Clock;
    if ops == [] {
      assert log + [] == log;
      assert AllRepeat(log, []) by { NoReplies(log); }
    } else {
      var t, next, rest := Apply(cfg, s, ops[0]), log + Adds(cfg, s, ops[0]),
          History(cfg, Apply(cfg, s, ops[0]), ops[1..]);
      ApplySteady(cfg, s, log, ops[0], clock);
      RunSteady(cfg, t, ops[1..], next, Clock(clock, ops[0]));
      Associative(log, Adds(cfg, s, ops[0]), rest);
      JoinRepeats(next, next + rest, Replies(cfg, s, ops[0]), AllReplies(cfg, t, ops[1..]));
    }
  }

  /** A new sender starts there. */
  lemma StartSteady(cfg: Config, frameNo: Word16, clock: int)
    ensures Whole(cfg, State(frameNo, EMPTY, []), [], clock)
  {
    EmptyAgrees();
  }

  /** After any such run, a send that passes the size check leaves nothing older than the retention time. */
  lemma RunFresh(cfg: Config, frameNo: Word16, ops: seq<Op>, op: Op, clock: int)
    requires cfg.Valid() && cfg.retentionMs > 0 && Forward(clock, ops) && LastClock(clock, ops) <= Clock(0, op)
    requires op.Sending? && op.data != [] && |op.data| <= MAX_SUPERFRAME_SIZE
    ensures Fresh(LimitsOf(cfg), Apply(cfg, RunOps(cfg, State(frameNo, EMPTY, []), ops), op).store, op.now)
  {
    var s := State(frameNo, EMPTY, []);
    hide Whole, Apply, Fresh, Adds, AllRepeat;
    StartSteady(cfg, frameNo, clock);
    RunSteady(cfg, s, ops, [], clock);
    SendSteady(cfg, RunOps(cfg, s, ops), [] + History(cfg, s, ops), op, LastClock(clock, ops));
  }

  /** And while the limit is not exceeded, the pass with which a send begins evicts by age alone. */
  lemma RunByAge(cfg: Config, frameNo: Word16, ops: seq<Op>, now: int, clock: int, key: Key)
    requires cfg.Valid() && cfg.retentionMs > 0 && Forward(clock, ops)
    requires RunOps(cfg, State(frameNo, EMPTY, []), ops).store.bytes <= cfg.maxBytes
    ensures var before := RunOps(cfg, State(frameNo, EMPTY, []), ops);
      var kept := Evicted(cfg, before, now).buffer;
      && (key in kept <==>
            key in before.store.buffer && before.store.buffer[key].timeUs >= now - 1000 * cfg.retentionMs)
      && (key in kept ==> kept[key] == before.store.buffer[key])
  {
    var s := State(frameNo, EMPTY, []);
    StartSteady(cfg, frameNo, clock);
    hide Apply, Adds, AllRepeat, Agree, Aged, Evict, Tied;
    RunSteady(cfg, s, ops, [], clock);
    EvictByAge(LimitsOf(cfg), RunOps(cfg, s, ops).store, [] + History(cfg, s, ops), LastClock(clock, ops), now, 0, key);
  }
}
