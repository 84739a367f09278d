/** Which requests a bundling send answers, from the store and the queue before the call: with room for the new
    fragments nothing is evicted on the way, and the answers can be read off. */
module Planned {
  import opened Wire
  import opened Fragmenter
  import opened Results
  import opened Retention
  import opened RetentionRuns
  import opened RetentionLimits
  import opened SenderSpec
  import opened Retransmits
  import opened SenderRuns
  import opened Keeping

  /** The answer to the oldest request, by the entries held before the call. */
  function FirstReply(buffer: map<Key, Retained>, queue: seq<Ticket>): seq<Reply>
    requires queue != []
  {
    var t := queue[0];
    if IsLive(buffer, t) then [Reply(t, buffer[t.key].data, buffer[t.key].stream)] else []
  }

  /** How many new fragments the pass takes. */
  function Takes(n: nat, replies: seq<Reply>, size: nat): nat {
    if |replies| == 1 && |replies[0].data| == size && n > 1 then n - 1 else n
  }

  /** The answers pass by pass: one request each while more than one fragment would fit the bundle. */
  function Plan(bundle: nat, buffer: map<Key, Retained>, queue: seq<Ticket>, size: nat, type1s: nat, lo: nat):
    seq<seq<Reply>>
    requires 0 < bundle && lo <= type1s
    decreases type1s - lo
  {
    if lo == type1s then []
    else
      var n := Min(bundle, type1s - lo);
      if queue == [] || n <= 1 then [[]] + Plan(bundle, buffer, queue, size, type1s, lo + n)
      else
        var r := FirstReply(buffer, queue);
        [r] + Plan(bundle, buffer, queue[1..], size, type1s, lo + Takes(n, r, size))
  }

  // ----- nothing is evicted -----

  lemma {:induction false} NothingEvicted(lim: Limits, st: Store, log: seq<Sent>, now: int, required: nat)
    requires Agree(st, log) && Fresh(lim, st, now) && st.bytes + required <= lim.maxBytes
    ensures var u := Evict(lim, st, now, required); u.buffer == st.buffer && u.queue == st.queue && u.bytes == st.bytes
    decreases |st.order|
  {
    if st.order != [] && !st.Live(st.order[0]) {
      DropStaleAgrees(st, log);
      hide Agree;
      NothingEvicted(lim, DropStale(st), log, now, required);
    }
  }

  /** The request is as live in one store as in the other, for the same bytes. */
  predicate SameTicket(a: map<Key, Retained>, b: map<Key, Retained>, t: Ticket) {
    && IsLive(a, t) == IsLive(b, t)
    && (IsLive(a, t) ==> a[t.key].data == b[t.key].data && a[t.key].stream == b[t.key].stream)
  }

  /** So for all requests outside this superframe. */
  ghost predicate SameElsewhere(a: map<Key, Retained>, b: map<Key, Retained>, frameNo: Word16) {
    forall t: Ticket | t.key.frameNo != frameNo :: SameTicket(a, b, t)
  }

  lemma SameJoin(a: map<Key, Retained>, b: map<Key, Retained>, c: map<Key, Retained>, frameNo: Word16)
    requires SameElsewhere(a, b, frameNo) && SameElsewhere(b, c, frameNo)
    ensures SameElsewhere(a, c, frameNo)
  {
    forall t: Ticket | t.key.frameNo != frameNo ensures SameTicket(a, c, t) {
      assert SameTicket(a, b, t) && SameTicket(b, c, t);
    }
  }

  /** The store is fresh and has this much room. */
  ghost predicate HasRoom(lim: Limits, st: Store, log: seq<Sent>, now: int, room: nat) {
    Agree(st, log) && Fresh(lim, st, now) && st.bytes + room <= lim.maxBytes
  }

  lemma RetainCalm(lim: Limits, st: Store, log: seq<Sent>, frameNo: Word16, fragmentNo: Word16, stream: Byte,
                   data: seq<Byte>, now: int, room: nat)
    requires HasRoom(lim, st, log, now, |data| + room)
    ensures var u := Retain(lim, st, frameNo, fragmentNo, stream, data, now);
      && HasRoom(lim, u, LogAfter(lim, log, frameNo, fragmentNo, stream, data), now, room)
      && u.queue == st.queue && SameElsewhere(st.buffer, u.buffer, frameNo)
  {
    hide Agree, Evict, LogAfter;
    RetainAgrees(lim, st, log, frameNo, fragmentNo, stream, data, now);
    if Retains(lim, |data|) {
      NothingEvicted(lim, st, log, now, Required(st, Key(frameNo, fragmentNo), |data|));
    }
  }

  lemma {:induction false} FramesCalm(lim: Limits, st: Store, log: seq<Sent>, job: Job, xs: seq<Sent>, lo: nat, hi: nat,
                                      now: int, room: nat)
    requires Lists(xs, job) && lo <= hi <= |xs| && SizeOf(xs, lo) <= SizeOf(xs, hi)
    requires HasRoom(lim, st, log, now, SizeOf(xs, hi) - SizeOf(xs, lo) + room)
    ensures job.Valid() && |xs| == job.Of() + 1
    ensures var u := RetainFrames(lim, st, job, lo, hi, now);
      && HasRoom(lim, u, log + FramesLog(lim, job, lo, hi), now, room)
      && u.queue == st.queue && SameElsewhere(st.buffer, u.buffer, job.frameNo)
    decreases hi - lo
  {
    hide Retain, Frame, Job.Valid, LogAfter, RetainFrames, Lists, FramesLog, HasRoom, SameElsewhere;
    ListsLength(xs, job);
    FewFragments(job);
    if lo == hi {
      NoFrames(lim, st, job, hi, now, log);
      SameSelf(st.buffer, job.frameNo);
    } else {
      ListsAt(xs, job, lo);
      SizeGrows(xs, lo + 1, hi);
      var u := Retain(lim, st, job.frameNo, lo, job.stream, Frame(job, lo), now);
      RetainCalm(lim, st, log, job.frameNo, lo, job.stream, Frame(job, lo), now,
                 SizeOf(xs, hi) - SizeOf(xs, lo + 1) + room);
      RetainStep(lim, st, job, lo, hi, now);
      FramesLogStep(lim, job, lo, hi, log);
      FramesCalm(lim, u, LogAfter(lim, log, job.frameNo, lo, job.stream, Frame(job, lo)), job, xs, lo + 1, hi, now,
                 room);
      SameJoin(st.buffer, u.buffer, RetainFrames(lim, st, job, lo, hi, now).buffer, job.frameNo);
    }
  }

  lemma SameSelf(a: map<Key, Retained>, frameNo: Word16)
    ensures SameElsewhere(a, a, frameNo)
  {
  }

  lemma PopCalm(lim: Limits, st: Store, log: seq<Sent>, now: int, room: nat, frameNo: Word16)
    requires HasRoom(lim, st, log, now, room) && st.queue != []
    ensures HasRoom(lim, Pop(st).0, log, now, room) && SameElsewhere(st.buffer, Pop(st).0.buffer, frameNo)
    ensures Pop(st).0.queue == st.queue[1..] && PopReply(st) == FirstReply(st.buffer, st.queue)
  {
    hide Agree;
    PopAgrees(st, log);
  }

  // ----- the plan is followed -----

  lemma PassEnds(cfg: Config, st: Store, job: Job, lo: nat, now: int)
    requires cfg.Valid() && job.Valid() && lo < job.cut.type1s
    ensures var n := Min(cfg.mode.BundleSize(), job.cut.type1s - lo);
      OnePass(cfg, st, job, lo, now).1.hi == lo + Takes(n, PassReply(cfg, st, job, lo), job.f as int + 8)
  {
    hide RetainFrames, Job.Valid;
  }

  lemma SameFirst(a: map<Key, Retained>, b: map<Key, Retained>, queue: seq<Ticket>, frameNo: Word16)
    requires SameElsewhere(a, b, frameNo) && NoneQueued(queue, frameNo) && queue != []
    ensures FirstReply(a, queue) == FirstReply(b, queue) && NoneQueued(queue[1..], frameNo)
  {
    assert SameTicket(a, b, queue[0]);
  }

  /** The pass asks as planned. */
  lemma AskFollowed(cfg: Config, buffer: map<Key, Retained>, st: Store, log: seq<Sent>, job: Job, lo: nat, now: int,
                    room: nat)
    requires cfg.Valid() && job.Valid() && lo < job.cut.type1s && HasRoom(LimitsOf(cfg), st, log, now, room)
    requires SameElsewhere(buffer, st.buffer, job.frameNo) && NoneQueued(st.queue, job.frameNo)
    ensures var mid, bundle := AfterAsk(cfg, st, job, lo), cfg.mode.BundleSize();
      var hi := OnePass(cfg, st, job, lo, now).1.hi;
      && HasRoom(LimitsOf(cfg), mid, log, now, room)
      && SameElsewhere(buffer, mid.buffer, job.frameNo) && NoneQueued(mid.queue, job.frameNo)
      && var size := job.f as int + 8;
         Plan(bundle, buffer, st.queue, size, job.cut.type1s, lo)
           == [PassReply(cfg, st, job, lo)] + Plan(bundle, buffer, mid.queue, size, job.cut.type1s, hi)
  {
    hide OnePass, Pop, Job.Valid, HasRoom, SameElsewhere, NoneQueued, FirstReply, PopReply;
    PassEnds(cfg, st, job, lo, now);
    if Asks(cfg, st, job, lo) {
      PopCalm(LimitsOf(cfg), st, log, now, room, job.frameNo);
      SameFirst(buffer, st.buffer, st.queue, job.frameNo);
      SameJoin(buffer, st.buffer, Pop(st).0.buffer, job.frameNo);
    }
  }

  lemma {:induction false} PlanFollowed(cfg: Config, buffer: map<Key, Retained>, st: Store, log: seq<Sent>, job: Job,
                                        xs: seq<Sent>, lo: nat, now: int)
    requires cfg.Valid() && Lists(xs, job) && lo <= job.cut.type1s && job.cut.type1s <= |xs|
    requires SizeOf(xs, lo) <= SizeOf(xs, job.cut.type1s)
    requires HasRoom(LimitsOf(cfg), st, log, now, SizeOf(xs, job.cut.type1s) - SizeOf(xs, lo))
    requires SameElsewhere(buffer, st.buffer, job.frameNo) && NoneQueued(st.queue, job.frameNo)
    ensures job.Valid() && Groups(cfg, st, job, lo, now)
         == Plan(cfg.mode.BundleSize(), buffer, st.queue, job.f as int + 8, job.cut.type1s, lo)
    decreases job.cut.type1s - lo
  {
    hide OnePass, RetainFrames, Job.Valid, FramesLog, HasRoom, SameElsewhere, NoneQueued, Lists, SizeOf, PassReply,
         AfterAsk, Plan;
    ListsLength(xs, job);
    FewType1s(job);
    var type1s, lim := job.cut.type1s, LimitsOf(cfg);
    if lo == type1s {
      PlanEnds(cfg.mode.BundleSize(), buffer, st.queue, job.f as int + 8, type1s);
    } else {
      OnePassIs(cfg, st, job, lo, now);
      var (u, p) := OnePass(cfg, st, job, lo, now);
      SizeGrows(xs, lo, p.hi);
      SizeGrows(xs, p.hi, type1s);
      var mid := AfterAsk(cfg, st, job, lo);
      AskFollowed(cfg, buffer, st, log, job, lo, now, SizeOf(xs, type1s) - SizeOf(xs, lo));
      FramesCalm(lim, mid, log, job, xs, lo, p.hi, now, SizeOf(xs, type1s) - SizeOf(xs, p.hi));
      SameJoin(buffer, mid.buffer, u.buffer, job.frameNo);
      PlanFollowed(cfg, buffer, u, log + FramesLog(lim, job, lo, p.hi), job, xs, p.hi, now);
    }
  }

  lemma FewType1s(job: Job)
    requires job.Valid()
    ensures job.cut.type1s <= job.Of()
  {
  }

  lemma PlanEnds(bundle: nat, buffer: map<Key, Retained>, queue: seq<Ticket>, size: nat, type1s: nat)
    requires 0 < bundle
    ensures Plan(bundle, buffer, queue, size, type1s, type1s) == []
  {
  }

  /** So before the call: with room for the new fragments and nothing of their superframe queued, all members of
      all bundles will be Type1 if and only if each request that the plan reaches, live and of the size of a
      new frame, is for a Type1 frame. */
  lemma PlannedType1(cfg: Config, st: Store, log: seq<Sent>, job: Job, now: int)
    requires cfg.Valid() && job.Valid() && HasRoom(LimitsOf(cfg), st, log, now, JobSize(job))
    requires NoneQueued(st.queue, job.frameNo)
    ensures var passes, size := Passes(cfg, st, job, 0, now).1, job.f as int + 8;
      var plan := Plan(cfg.mode.BundleSize(), st.buffer, st.queue, size, job.cut.type1s, 0);
      && |passes| == |plan| && (forall i | 0 <= i < |passes| :: passes[i].lo <= passes[i].hi <= job.cut.type1s)
      && ((forall i | 0 <= i < |passes| :: AllType1(MembersOf(job, passes[i]))) <==>
          (forall i | 0 <= i < |plan| :: FitsType1(plan[i], size)))
  {
    hide Agree, HasRoom, Passes, Groups, Plan, AllType1, FitsType1, MembersOf, Job.Valid, NoneQueued, JobSize;
    RoomAgrees(LimitsOf(cfg), st, log, now, JobSize(job));
    RoomPlan(cfg, st, log, job, now);
    BundlesType1(cfg, st, log, job, now);
  }

  lemma RoomAgrees(lim: Limits, st: Store, log: seq<Sent>, now: int, room: nat)
    requires HasRoom(lim, st, log, now, room)
    ensures Agree(st, log)
  {
    hide Agree;
  }

  lemma LessRoom(lim: Limits, st: Store, log: seq<Sent>, now: int, room: nat, less: nat)
    requires HasRoom(lim, st, log, now, room) && less <= room
    ensures HasRoom(lim, st, log, now, less)
  {
    hide Agree, Fresh;
  }

  lemma RoomPlan(cfg: Config, st: Store, log: seq<Sent>, job: Job, now: int)
    requires cfg.Valid() && job.Valid() && HasRoom(LimitsOf(cfg), st, log, now, JobSize(job))
    requires NoneQueued(st.queue, job.frameNo)
    ensures job.cut.type1s <= job.Of() && Groups(cfg, st, job, 0, now)
         == Plan(cfg.mode.BundleSize(), st.buffer, st.queue, job.f as int + 8, job.cut.type1s, 0)
  {
    hide HasRoom, SizeOf, Lists, FramesOf, Groups, Plan, Job.Valid, SameElsewhere, NoneQueued, Numbered;
    FewType1s(job);
    FramesListed(job);
    var xs, n := FramesOf(job), job.cut.type1s;
    ListsLength(xs, job);
    SizeGrows(xs, 0, n);
    SizeGrows(xs, n, |xs|);
    NoSize(xs);
    SameSelf(st.buffer, job.frameNo);
    LessRoom(LimitsOf(cfg), st, log, now, JobSize(job), SizeOf(xs, n));
    PlanFollowed(cfg, st.buffer, st, log, job, xs, 0, now);
  }

  lemma NoSize(xs: seq<Sent>)
    ensures SizeOf(xs, 0) == 0
  {
  }
}
