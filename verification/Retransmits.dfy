/** Which requests are answered by a bundling send or by draining the queue, and what the answers are. */
module Retransmits {
  import opened Wire
  import opened Fragmenter
  import opened NackRanges
  import opened Results
  import opened Retention
  import opened RetentionRuns
  import opened RetentionLimits
  import opened SenderSpec

  /** An answered request and what was sent for it. */
  datatype Reply = Reply(ticket: Ticket, data: seq<Byte>, stream: Byte)

  /** The answer to the oldest request, if it is still live. */
  function PopReply(st: Store): seq<Reply>
    requires st.queue != []
  {
    var a := Pop(st).1;
    if a.Nothing? then [] else [Reply(st.queue[0], a.data, a.stream)]
  }

  /** Nothing of this superframe waits for retransmission. */
  predicate NoneQueued(queue: seq<Ticket>, frameNo: Word16) {
    forall i | 0 <= i < |queue| :: queue[i].key.frameNo != frameNo
  }

  // ----- replies of a bundling send -----

  predicate Asks(cfg: Config, st: Store, job: Job, lo: nat)
    requires lo <= job.cut.type1s
  {
    st.queue != [] && Min(cfg.mode.BundleSize(), job.cut.type1s - lo) > 1
  }

  function PassReply(cfg: Config, st: Store, job: Job, lo: nat): seq<Reply>
    requires lo <= job.cut.type1s
  {
    if Asks(cfg, st, job, lo) then PopReply(st) else []
  }

  /** The replies pass by pass. */
  function Groups(cfg: Config, st: Store, job: Job, lo: nat, now: int): seq<seq<Reply>>
    requires cfg.Valid() && job.Valid() && lo <= job.cut.type1s
    decreases job.cut.type1s - lo
  {
    if lo == job.cut.type1s then []
    else
      var (u, p) := OnePass(cfg, st, job, lo, now);
      [PassReply(cfg, st, job, lo)] + Groups(cfg, u, job, p.hi, now)
  }

  /** The pass sends its reply, and no other retransmit: in the bundle if it has the size of a new frame, and
      as a packet of its own otherwise. */
  predicate Carried(p: Pass, replies: seq<Reply>, size: nat) {
    || (replies == [] && p.direct == [] && p.retransmit == [])
    || (|replies| == 1 &&
        if |replies[0].data| == size then p.direct == [] && p.retransmit == [replies[0].data]
        else p.direct == [Emission(replies[0].data, replies[0].stream)] && p.retransmit == [])
  }

  /** The store in which the new fragments of the pass are retained. */
  function AfterAsk(cfg: Config, st: Store, job: Job, lo: nat): Store
    requires lo <= job.cut.type1s
  {
    if Asks(cfg, st, job, lo) then Pop(st).0 else st
  }

  lemma OnePassIs(cfg: Config, st: Store, job: Job, lo: nat, now: int)
    requires cfg.Valid() && job.Valid() && lo < job.cut.type1s
    ensures var (u, p) := OnePass(cfg, st, job, lo, now);
      && u == RetainFrames(LimitsOf(cfg), AfterAsk(cfg, st, job, lo), job, lo, p.hi, now)
      && Carried(p, PassReply(cfg, st, job, lo), job.f as int + 8)
  {
    hide RetainFrames;
  }

  /** Every retransmit of the loop is the reply of its pass. */
  lemma {:induction false} GroupsCarried(cfg: Config, st: Store, job: Job, lo: nat, now: int)
    requires cfg.Valid() && job.Valid() && lo <= job.cut.type1s
    ensures var passes, groups := Passes(cfg, st, job, lo, now).1, Groups(cfg, st, job, lo, now);
      |passes| == |groups| && forall i | 0 <= i < |passes| :: Carried(passes[i], groups[i], job.f as int + 8)
    decreases job.cut.type1s - lo
  {
    if lo < job.cut.type1s {
      var (u, p) := OnePass(cfg, st, job, lo, now);
      OnePassIs(cfg, st, job, lo, now);
      hide OnePass, PassReply, Carried, Job.Valid, Config.Valid;
      GroupsCarried(cfg, u, job, p.hi, now);
    }
  }

  // ----- replies of draining -----

  function DrainReplies(st: Store, limit: nat): seq<Reply>
    decreases |st.queue|
  {
    if st.queue == [] || limit == 0 then []
    else PopReply(st) + DrainReplies(Pop(st).0, limit - |PopReply(st)|)
  }

  function Answers(replies: seq<Reply>): seq<Answer> {
    if replies == [] then [] else [Retransmit(replies[0].data, replies[0].stream)] + Answers(replies[1..])
  }

  /** Draining sends these replies and nothing else. */
  lemma {:induction false} DrainCarried(st: Store, limit: nat)
    ensures Drain(st, limit).1 == Answers(DrainReplies(st, limit))
    decreases |st.queue|
  {
    if st.queue != [] && limit > 0 {
      var (u, a) := Pop(st);
      DrainCarried(u, limit - |PopReply(st)|);
      hide Pop;
      if a.Nothing? { assert [] + DrainReplies(u, limit) == DrainReplies(u, limit); }
      else { assert DrainReplies(st, limit)[1..] == DrainReplies(u, limit - 1); }
    }
  }

  // ----- a reply was a request waiting before the call -----

  /** The request waits in the queue, its entry is still the one it was made for, and this is that entry. */
  predicate Waits(st: Store, r: Reply) {
    && r.ticket in st.queue && st.Live(r.ticket)
    && st.buffer[r.ticket.key].data == r.data && st.buffer[r.ticket.key].stream == r.stream
  }

  lemma PopWaits(st: Store, r: Reply)
    requires st.queue != []
    ensures Waits(Pop(st).0, r) ==> Waits(st, r)
    ensures r in PopReply(st) ==> Waits(st, r)
  {
    assert st.queue[0] in st.queue;
    assert forall t <- st.queue[1..] :: t in st.queue;
  }

  /** Retaining a fragment makes no request live that was not. */
  lemma RetainWaits(lim: Limits, st: Store, log: seq<Sent>, frameNo: Word16, fragmentNo: Word16, stream: Byte,
                    data: seq<Byte>, now: int, r: Reply)
    requires Agree(st, log)
    ensures Waits(Retain(lim, st, frameNo, fragmentNo, stream, data, now), r) ==> Waits(st, r)
  {
    var u := Retain(lim, st, frameNo, fragmentNo, stream, data, now);
    if Retains(lim, |data|) && Waits(u, r) {
      var required := Required(st, Key(frameNo, fragmentNo), |data|);
      var e := Evict(lim, st, now, required);
      EvictKeepsQueue(lim, st, now, required);
      EvictAgrees(lim, st, now, required, log);
      EvictMakesRoom(lim, st, log, now, required, r.ticket.key);
      PutNotLive(e, log, frameNo, fragmentNo, stream, data, now, r.ticket);
      hide Agree, Evict;
    }
  }

  lemma PutNotLive(st: Store, log: seq<Sent>, frameNo: Word16, fragmentNo: Word16, stream: Byte, data: seq<Byte>,
                   now: int, t: Ticket)
    requires Agree(st, log) && t in st.queue && Put(st, frameNo, fragmentNo, stream, data, now).Live(t)
    ensures t.key != Key(frameNo, fragmentNo)
  {
    assert Known(log, t);
  }

  lemma {:induction false} EvictKeepsQueue(lim: Limits, st: Store, now: int, required: nat)
    ensures Evict(lim, st, now, required).queue == st.queue
    decreases |st.order|
  {
    hide OverLimit;
    if st.order != [] {
      if !st.Live(st.order[0]) { EvictKeepsQueue(lim, st.(order := st.order[1..]), now, required); }
      else { EvictKeepsQueue(lim, DropOldest(st), now, required); }
    }
  }

  /** What the fragments lo..hi-1 of a job add to the history. */
  function FramesLog(lim: Limits, job: Job, lo: nat, hi: nat): seq<Sent>
    requires job.Valid() && lo <= hi <= job.Of() + 1
    decreases hi - lo
  {
    if lo == hi then []
    else LogAfter(lim, [], job.frameNo, lo, job.stream, Frame(job, lo)) + FramesLog(lim, job, lo + 1, hi)
  }

  lemma FramesLogStep(lim: Limits, job: Job, lo: nat, hi: nat, log: seq<Sent>)
    requires job.Valid() && lo < hi <= job.Of() + 1
    ensures log + FramesLog(lim, job, lo, hi)
         == LogAfter(lim, log, job.frameNo, lo, job.stream, Frame(job, lo)) + FramesLog(lim, job, lo + 1, hi)
  {
    hide Frame;
    Associative(log, LogAfter(lim, [], job.frameNo, lo, job.stream, Frame(job, lo)), FramesLog(lim, job, lo + 1, hi));
    assert log + [] == log;
  }

  lemma NoFrames(lim: Limits, st: Store, job: Job, hi: nat, now: int, log: seq<Sent>)
    requires job.Valid() && hi <= job.Of() + 1
    ensures RetainFrames(lim, st, job, hi, hi, now) == st && log + FramesLog(lim, job, hi, hi) == log
  {
  }

  lemma {:induction false} FramesAgree(lim: Limits, st: Store, log: seq<Sent>, job: Job, lo: nat, hi: nat, now: int)
    requires Agree(st, log) && job.Valid() && lo <= hi <= job.Of() + 1
    ensures Agree(RetainFrames(lim, st, job, lo, hi, now), log + FramesLog(lim, job, lo, hi))
    decreases hi - lo
  {
    hide Agree, Retain, Frame, LogAfter, Job.Valid, RetainFrames, FramesLog;
    FewFragments(job);
    if lo == hi {
      NoFrames(lim, st, job, hi, now, log);
    } else {
      RetainStep(lim, st, job, lo, hi, now);
      var u := Retain(lim, st, job.frameNo, lo, job.stream, Frame(job, lo), now);
      RetainAgrees(lim, st, log, job.frameNo, lo, job.stream, Frame(job, lo), now);
      FramesLogStep(lim, job, lo, hi, log);
      FramesAgree(lim, u, LogAfter(lim, log, job.frameNo, lo, job.stream, Frame(job, lo)), job, lo + 1, hi, now);
    }
  }

  lemma {:induction false} FramesWait(lim: Limits, st: Store, log: seq<Sent>, job: Job, lo: nat, hi: nat, now: int,
                                      r: Reply)
    requires Agree(st, log) && job.Valid() && lo <= hi <= job.Of() + 1
    ensures Waits(RetainFrames(lim, st, job, lo, hi, now), r) ==> Waits(st, r)
    decreases hi - lo
  {
    hide Agree, Retain, Frame, Waits, LogAfter, Job.Valid, RetainFrames;
    FewFragments(job);
    if lo == hi {
      RetainEnd(lim, st, job, hi, now);
    } else {
      RetainStep(lim, st, job, lo, hi, now);
      var u := Retain(lim, st, job.frameNo, lo, job.stream, Frame(job, lo), now);
      RetainWaits(lim, st, log, job.frameNo, lo, job.stream, Frame(job, lo), now, r);
      RetainAgrees(lim, st, log, job.frameNo, lo, job.stream, Frame(job, lo), now);
      FramesWait(lim, u, LogAfter(lim, log, job.frameNo, lo, job.stream, Frame(job, lo)), job, lo + 1, hi, now, r);
    }
  }

  /** Every reply of the loop is a request that waited, live and with the same bytes, before the first pass. */
  lemma {:induction false} GroupsWait(cfg: Config, st: Store, log: seq<Sent>, job: Job, lo: nat, now: int, i: nat,
                                      r: Reply)
    requires Agree(st, log) && cfg.Valid() && job.Valid() && lo <= job.cut.type1s
    requires i < |Groups(cfg, st, job, lo, now)| && r in Groups(cfg, st, job, lo, now)[i]
    ensures Waits(st, r)
    decreases job.cut.type1s - lo
  {
    var (u, p) := OnePass(cfg, st, job, lo, now);
    var mid := AfterAsk(cfg, st, job, lo);
    OnePassIs(cfg, st, job, lo, now);
    if Asks(cfg, st, job, lo) { PopWaits(st, r); PopAgrees(st, log); }
    if i > 0 {
      assert job.cut.type1s <= job.Of() + 1;
      hide Agree, Waits, OnePass, Pop, RetainFrames;
      FramesWait(LimitsOf(cfg), mid, log, job, lo, p.hi, now, r);
      FramesAgree(LimitsOf(cfg), mid, log, job, lo, p.hi, now);
      GroupsWait(cfg, u, log + FramesLog(LimitsOf(cfg), job, lo, p.hi), job, p.hi, now, i - 1, r);
    }
  }

  // ----- which frames get into bundles -----

  predicate IsType1(frame: seq<Byte>) { frame != [] && GetFrameType(frame[0]) == 1 }

  predicate AllType1(frames: seq<seq<Byte>>) { forall i | 0 <= i < |frames| :: IsType1(frames[i]) }

  /** Every request waiting, still live, of the size of a new frame is for a Type1 frame. */
  ghost predicate OnlyType1Fits(st: Store, size: nat) {
    forall t <- st.queue | st.Live(t) && |st.buffer[t.key].data| == size :: IsType1(st.buffer[t.key].data)
  }

  /** Each reply of that size is a Type1 frame. */
  predicate FitsType1(replies: seq<Reply>, size: nat) {
    forall k | 0 <= k < |replies| && |replies[k].data| == size :: IsType1(replies[k].data)
  }

  lemma {:induction false} NewType1(job: Job, lo: nat, hi: nat)
    requires job.Valid() && lo <= hi <= job.cut.type1s
    ensures AllType1(FrameList(job, lo, hi))
    decreases hi - lo
  {
    hide Encode, Job.Valid;
    if lo < hi {
      DecodeEncode(job.Fragment(lo));
      NewType1(job, lo + 1, hi);
      assert FrameList(job, lo, hi)[1..] == FrameList(job, lo + 1, hi);
    }
  }

  lemma JoinType1(a: seq<seq<Byte>>, b: seq<seq<Byte>>)
    requires AllType1(b)
    ensures AllType1(a + b) <==> AllType1(a)
  {
    if AllType1(a + b) {
      forall i | 0 <= i < |a| ensures IsType1(a[i]) { assert IsType1((a + b)[i]); }
    }
  }

  lemma OneType1(frame: seq<Byte>)
    ensures AllType1([frame]) <==> IsType1(frame)
  {
    assert [frame][0] == frame;
  }

  /** The members of the bundle of a pass are all Type1 exactly if its reply, if it goes in, is. */
  lemma MembersType1(job: Job, p: Pass, replies: seq<Reply>)
    requires job.Valid() && p.lo <= p.hi <= job.cut.type1s && Carried(p, replies, job.f as int + 8)
    ensures AllType1(MembersOf(job, p)) <==> FitsType1(replies, job.f as int + 8)
  {
    hide FrameList, Job.Valid, IsType1, AllType1, FitsType1, Carried;
    NewType1(job, p.lo, p.hi);
    JoinType1(p.retransmit, FrameList(job, p.lo, p.hi));
    RetransmitType1(p, replies, job.f as int + 8);
  }

  lemma RetransmitType1(p: Pass, replies: seq<Reply>, size: nat)
    requires Carried(p, replies, size)
    ensures AllType1(p.retransmit) <==> FitsType1(replies, size)
  {
    hide IsType1;
    if p.retransmit != [] {
      assert p.retransmit == [replies[0].data];
      OneType1(replies[0].data);
    }
  }

  /** Over the whole loop: all members of all bundles are Type1 if and only if each answered request of the
      size of a new frame is for a Type1 frame; in particular if that holds of every request waiting before. */
  lemma BundlesType1(cfg: Config, st: Store, log: seq<Sent>, job: Job, now: int)
    requires Agree(st, log) && cfg.Valid() && job.Valid()
    ensures var passes, groups, size := Passes(cfg, st, job, 0, now).1, Groups(cfg, st, job, 0, now), job.f as int + 8;
      && |passes| == |groups|
      && (forall i | 0 <= i < |passes| :: passes[i].lo <= passes[i].hi <= job.cut.type1s)
      && ((forall i | 0 <= i < |passes| :: AllType1(MembersOf(job, passes[i]))) <==>
          (forall i | 0 <= i < |groups| :: FitsType1(groups[i], size)))
      && (OnlyType1Fits(st, size) ==> forall i | 0 <= i < |passes| :: AllType1(MembersOf(job, passes[i])))
  {
    var passes := Passes(cfg, st, job, 0, now).1;
    var groups: seq<seq<Reply>> := Groups(cfg, st, job, 0, now);
    var size := job.f as int + 8;
    GroupsCarried(cfg, st, job, 0, now);
    hide Passes, Groups, Agree, Carried, AllType1, FitsType1, MembersOf, Job.Valid;
    forall i | 0 <= i < |passes|
      ensures passes[i].lo <= passes[i].hi <= job.cut.type1s
      ensures AllType1(MembersOf(job, passes[i])) <==> FitsType1(groups[i], size)
    {
      PassType1(cfg, st, job, now, i);
    }
    hide OnlyType1Fits;
    if OnlyType1Fits(st, size) { GroupsType1(cfg, st, log, job, now, size); }
  }

  lemma PassType1(cfg: Config, st: Store, job: Job, now: int, i: nat)
    requires cfg.Valid() && job.Valid() && i < |Passes(cfg, st, job, 0, now).1|
    ensures var passes, groups, size := Passes(cfg, st, job, 0, now).1, Groups(cfg, st, job, 0, now), job.f as int + 8;
      && |passes| == |groups| && passes[i].lo <= passes[i].hi <= job.cut.type1s
      && (AllType1(MembersOf(job, passes[i])) <==> FitsType1(groups[i], size))
  {
    GroupsCarried(cfg, st, job, 0, now);
    PassesTile(cfg, st, job, 0, now);
    hide Passes, Groups, Carried, AllType1, FitsType1, MembersOf, Job.Valid;
    var p := Passes(cfg, st, job, 0, now).1[i];
    assert Fits(cfg, job, p);
    MembersType1(job, p, Groups(cfg, st, job, 0, now)[i]);
  }

  lemma GroupsType1(cfg: Config, st: Store, log: seq<Sent>, job: Job, now: int, size: nat)
    requires Agree(st, log) && cfg.Valid() && job.Valid() && OnlyType1Fits(st, size)
    ensures forall i | 0 <= i < |Groups(cfg, st, job, 0, now)| :: FitsType1(Groups(cfg, st, job, 0, now)[i], size)
  {
    var groups: seq<seq<Reply>> := Groups(cfg, st, job, 0, now);
    hide Groups, Agree, FitsType1, OnlyType1Fits, Job.Valid;
    forall i | 0 <= i < |groups| ensures FitsType1(groups[i], size) { GroupType1(cfg, st, log, job, now, i, size); }
  }

  lemma GroupType1(cfg: Config, st: Store, log: seq<Sent>, job: Job, now: int, i: nat, size: nat)
    requires Agree(st, log) && cfg.Valid() && job.Valid() && OnlyType1Fits(st, size)
    requires i < |Groups(cfg, st, job, 0, now)|
    ensures FitsType1(Groups(cfg, st, job, 0, now)[i], size)
  {
    var g: seq<Reply> := Groups(cfg, st, job, 0, now)[i];
    hide Groups, Agree, AllType1, Waits;
    forall k | 0 <= k < |g| && |g[k].data| == size ensures IsType1(g[k].data) {
      GroupsWait(cfg, st, log, job, 0, now, i, g[k]);
      WaitingType1(st, size, g[k]);
    }
  }

  lemma WaitingType1(st: Store, size: nat, r: Reply)
    requires OnlyType1Fits(st, size) && Waits(st, r) && |r.data| == size
    ensures IsType1(r.data)
  {
  }

  /** The request that waits longest, if it is live and of that size, is answered in the first bundle. */
  lemma OldestLeads(cfg: Config, st: Store, job: Job, now: int)
    requires cfg.Valid() && !cfg.mode.Single? && job.Valid() && job.cut.type1s >= 2
    requires st.queue != [] && st.Live(st.queue[0]) && |st.buffer[st.queue[0].key].data| == job.f as int + 8
    ensures var passes := Passes(cfg, st, job, 0, now).1;
      && passes != [] && Fits(cfg, job, passes[0]) && Wrappable(job, passes[0])
      && passes[0].retransmit == [st.buffer[st.queue[0].key].data]
      && Carried(passes[0], PassReply(cfg, st, job, 0), job.f as int + 8)
  {
    PassesTile(cfg, st, job, 0, now);
    OnePassIs(cfg, st, job, 0, now);
    var passes := Passes(cfg, st, job, 0, now).1;
    assert passes[0] == OnePass(cfg, st, job, 0, now).1;
    assert PassReply(cfg, st, job, 0) == [Reply(st.queue[0], st.buffer[st.queue[0].key].data,
                                                st.buffer[st.queue[0].key].stream)];
    hide OnePass, Passes, RetainFrames, Job.Valid;
    FitsWrappable(cfg, job, passes[0]);
  }

  /** So if it is not for a Type1 frame, that bundle holds a member which is not. */
  lemma OldestSpoils(cfg: Config, st: Store, job: Job, now: int)
    requires cfg.Valid() && !cfg.mode.Single? && job.Valid() && job.cut.type1s >= 2
    requires st.queue != [] && st.Live(st.queue[0])
    requires var data := st.buffer[st.queue[0].key].data; |data| == job.f as int + 8 && !IsType1(data)
    ensures var passes := Passes(cfg, st, job, 0, now).1;
      && passes != [] && passes[0].lo <= passes[0].hi <= job.cut.type1s
      && passes[0].retransmit == [st.buffer[st.queue[0].key].data]
      && !AllType1(MembersOf(job, passes[0]))
  {
    OldestLeads(cfg, st, job, now);
    hide Passes, AllType1, Job.Valid;
    MembersType1(job, Passes(cfg, st, job, 0, now).1[0], PassReply(cfg, st, job, 0));
  }
}
