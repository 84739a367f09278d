/** What is sent is held for repair: a send with enough room keeps all its fragments, and from there enough
    loss-free NACK rounds deliver the frame, whatever was lost. */
module Holding {
  import opened Wire
  import opened Fragmenter
  import opened FrameMemory
  import opened NackRanges
  import opened Results
  import opened Retention
  import opened RetentionRuns
  import opened RetentionLimits
  import opened SenderSpec
  import opened Retransmits
  import opened Loads
  import opened SenderRuns
  import opened Keeping
  import opened NackService
  import opened ReceiverSpec
  import opened ReceiverRuns
  import opened FrameOrder
  import opened EndToEnd
  import opened Transmission
  import opened Repair
  import opened SweptRounds

  // ----- a send -----

  lemma KeptBacks(st: Store, job: Job, xs: seq<Sent>, now: int, b: Bucket)
    requires Lists(xs, job) && Kept(st, job.frameNo, xs, |xs|, now)
    ensures Backed(st, job, b)
  {
    hide Frame, Job.Valid;
    FewFragments(job);
    forall k | 0 <= k <= job.Of() ensures Held(st, job, k) {
      assert IsFrame(xs, job, k) && KeptAt(st, xs, |xs|, k, now);
    }
    forall key <- st.buffer | st.buffer[key].frameNo == job.frameNo
      ensures st.buffer[key].fragmentNo <= job.Of() && st.buffer[key].data == Frame(job, st.buffer[key].fragmentNo)
    {
      assert IsFrame(xs, job, st.buffer[key].fragmentNo);
    }
  }

  lemma NothingKept(cfg: Config, s: State, log: seq<Sent>, xs: seq<Sent>, now: int)
    requires Agree(s.store, log) && Numbered(xs, s.frameNo)
    requires forall key <- s.store.buffer :: s.store.buffer[key].frameNo != s.frameNo
    ensures Kept(Evicted(cfg, s, now), s.frameNo, xs, 0, now)
  {
    var u := Evicted(cfg, s, now);
    hide Evict, Agree;
    forall key <- u.buffer ensures u.buffer[key].frameNo != s.frameNo {
      if cfg.retentionMs > 0 { EvictMakesRoom(LimitsOf(cfg), s.store, log, now, 0, key); }
    }
  }

  /** What a call keeps, fragment by fragment. */
  lemma SendKeeps(cfg: Config, s: State, log: seq<Sent>, op: Op, xs: seq<Sent>)
    requires cfg.Valid() && Agree(s.store, log) && Accepted(cfg, op) && cfg.retentionMs > 0
    requires Lists(xs, OpJob(cfg, s, op)) && Numbered(xs, s.frameNo) && SizeOf(xs, |xs|) <= cfg.maxBytes
    requires forall key <- s.store.buffer :: s.store.buffer[key].frameNo != s.frameNo
    ensures Kept(Apply(cfg, s, op).store, s.frameNo, xs, |xs|, op.now)
  {
    var job, st := OpJob(cfg, s, op), Evicted(cfg, s, op.now);
    assert job.frameNo == s.frameNo;
    EvictAgrees(LimitsOf(cfg), s.store, op.now, 0, log);
    NothingKept(cfg, s, log, xs, op.now);
    SendIs(cfg, s, op);
    hide Agree, Evict, SendJob, Apply, OpJob, Accepted, SizeOf, Kept, Lists, Numbered;
    JobKept(cfg, st, log, job, xs, op.now);
  }

  /** A send whose frames fit the byte limit together, with no frame of the same number left in the store:
      afterwards every fragment is held, whatever else was retained or waiting. */
  lemma SendBacks(cfg: Config, s: State, log: seq<Sent>, op: Op, b: Bucket)
    requires cfg.Valid() && Agree(s.store, log) && Accepted(cfg, op) && cfg.retentionMs > 0
    requires JobSize(OpJob(cfg, s, op)) <= cfg.maxBytes
    requires forall key <- s.store.buffer :: s.store.buffer[key].frameNo != s.frameNo
    ensures Backed(Apply(cfg, s, op).store, OpJob(cfg, s, op), b)
  {
    var job := OpJob(cfg, s, op);
    assert job.frameNo == s.frameNo;
    FramesListed(job);
    hide Agree, Apply, OpJob, Accepted, SizeOf, Kept, Lists, Numbered, FramesOf;
    var xs := FramesOf(job);
    assert |xs| == job.Of() + 1 by { ListsLength(xs, job); }
    SendKeeps(cfg, s, log, op, xs);
    KeptBacks(Apply(cfg, s, op).store, job, xs, op.now, b);
  }

  lemma {:induction false} PassesQueueNothing(cfg: Config, st: Store, job: Job, lo: nat, now: int)
    requires cfg.Valid() && job.Valid() && lo <= job.cut.type1s
    ensures forall t <- Passes(cfg, st, job, lo, now).0.queue :: t in st.queue
    decreases job.cut.type1s - lo
  {
    hide RetainFrames, Job.Valid, Frame;
    if lo < job.cut.type1s {
      var (u, p) := OnePass(cfg, st, job, lo, now);
      OnePassIs(cfg, st, job, lo, now);
      FramesKeepQueue(LimitsOf(cfg), AfterAsk(cfg, st, job, lo), job, lo, p.hi, now);
      hide OnePass;
      PassesQueueNothing(cfg, u, job, p.hi, now);
    }
  }

  /** A send queues nothing. */
  lemma SendQueuesNothing(cfg: Config, s: State, op: Op)
    requires cfg.Valid() && Accepted(cfg, op)
    ensures forall t <- Apply(cfg, s, op).store.queue :: t in s.store.queue
    ensures s.store.queue == [] ==> Apply(cfg, s, op).store.queue == []
  {
    var job, st, lim := OpJob(cfg, s, op), Evicted(cfg, s, op.now), LimitsOf(cfg);
    hide OpJob, Apply, Accepted, Passes, RetainFrames, SendJob, Evict, Wrappers, Alone, Job.Valid;
    EvictKeepsQueue(lim, s.store, op.now, 0);
    SendIs(cfg, s, op);
    SendJobIs(cfg, st, job, op.now);
    if cfg.mode.Single? || job.Of() == 0 {
      FramesKeepQueue(lim, st, job, 0, job.Of() + 1, op.now);
    } else {
      PassesQueueNothing(cfg, st, job, 0, op.now);
      FramesKeepQueue(lim, Passes(cfg, st, job, 0, op.now).0, job, job.cut.type1s, job.Of() + 1, op.now);
    }
    var queue := Apply(cfg, s, op).store.queue;
    if queue != [] { assert queue[0] in s.store.queue; }
  }

  // ----- rounds -----

  /** A NACK message reaches the sender, `processRetransmits` answers everything that waits, and the answers go
      through `receive`. */
  function Round(cfg: Settings, s: Receiver, st: Store, message: seq<Byte>, source: Byte, now: int,
                 delay: int -> int): (r: (Receiver, Store))
    requires s.TableOk()
    ensures r.0.TableOk()
  {
    var u := NackEffect(st, message).0;
    DrainAnswers(u, |u.queue|);
    var answers := Drain(u, |u.queue|).1;
    assert forall i | 0 <= i < |answers| :: answers[i] in answers;
    (Receives(cfg, s, answers, source, now, delay), Drain(u, |u.queue|).0)
  }

  function AskedSet(b: Bucket): set<nat>
    requires b.asm.Ok()
  {
    set k <- Asked(b)
  }

  /** A round brings an incomplete bucket forward and leaves the sender ready for the next, with nothing queued.
      If nothing of this superframe was queued before, the bucket gets exactly what it asked for. In
      RUN_TO_COMPLETION mode the frame may come out on the way. */
  lemma RoundRepairs(cfg: Settings, s: Receiver, job: Job, source: Byte, order: int, start: int, got: set<nat>,
                     st: Store, log: seq<Sent>, now: int, delay: int -> int)
    returns (more: set<nat>)
    requires Follows(cfg, s, job, source, order, start, Collecting(got)) && s.TableOk() && job.Valid()
    requires (cfg.autoSweep ==> Early(cfg, start, now)) && !Full(job, got)
    requires Sound(st, log) && Backed(st, job, s.buckets[s.Index(job.frameNo)])
    ensures s.buckets[s.Index(job.frameNo)].asm.Ok()
    ensures var b := s.buckets[s.Index(job.frameNo)];
      var (t, u) := Round(cfg, s, st, NackMessage(b), source, now, delay);
      && u.queue == [] && Sound(u, log) && Backed(u, job, b)
      && s.delivered <= t.delivered && (!cfg.autoSweep ==> t.delivered == s.delivered)
      && (NoneQueued(st.queue, job.frameNo) ==> more <= got + AskedSet(b))
      && var c := t.buckets[t.Index(job.frameNo)];
         CameFull(job, source, order, s.delivered, t.delivered, more)
         || (StillCollects(cfg, s, t, job, source, order, start, more) && c.asm.received == more && got < more
             && Advanced(job, b, c) && AskedSet(b) <= more && Backed(u, job, c)
             && (Resting(cfg, b.timing, now, delay(order)) ==> c.timing == b.timing))
  {
    var b := s.buckets[s.Index(job.frameNo)];
    assert b.asm.Ok() && Collects(b, job, source, order) && b.asm.received == got;
    var u := NackEffect(st, NackMessage(b)).0;
    hide Collects, Full, NackEffect, NackMessage, Sound, Receives, Drain, Gaps, Good, Frame, Backed, OnlyAnswers,
         Advanced, NoneQueued, Asked, Assembly.Ok, Receiver.BucketsOk, Receiver.Pending, Receiver.Listed, Follows,
         Early,
         StillCollects, CameFull, Resting, Job.Valid, AskedSet;
    more := RoundThroughReceive(cfg, s, job, source, order, start, got, st, log, |u.queue|, now, delay);
    NackSound(st, log, NackMessage(b));
    NackBacks(st, job, b, NackMessage(b));
    DrainBacks(u, log, |u.queue|, job, b);
    DrainExact(u, |u.queue|);
    var (t, v) := Round(cfg, s, st, NackMessage(b), source, now, delay);
    if !cfg.autoSweep { ReceivesQuiet(cfg, s, Drain(u, |u.queue|).1, source, now, delay); }
    if !CameFull(job, source, order, s.delivered, t.delivered, more) {
      var c := t.buckets[t.Index(job.frameNo)];
      AdvancedMore(job, b, c);
      MoreBacked(v, job, b, c);
    }
    if NoneQueued(st.queue, job.frameNo) { RoundExact(job, source, order, st, log, b, more); }
  }

  /** The ticket behind an answer. */
  lemma {:induction false} AnswerTicket(buffer: map<Key, Retained>, queue: seq<Ticket>, a: Answer) returns (t: Ticket)
    requires a in AnswersTo(buffer, queue)
    ensures t in queue && IsLive(buffer, t) && a == Retransmit(buffer[t.key].data, buffer[t.key].stream)
  {
    if IsLive(buffer, queue[0]) && a == Retransmit(buffer[queue[0].key].data, buffer[queue[0].key].stream) {
      t := queue[0];
    } else {
      t := AnswerTicket(buffer, queue[1..], a);
    }
  }

  lemma {:induction false} WantedOnly(st: Store, stream: Byte, frameNo: Word16, ks: seq<nat>, t: Ticket)
    returns (k: nat)
    requires Numbers(ks) && t in WantedTickets(st, stream, frameNo, ks)
    ensures k in ks && k <= UINT16_MAX && t.key == Key(frameNo, k)
  {
    hide Wanted;
    if t.key == Key(frameNo, ks[0]) {
      k := ks[0];
    } else {
      k := WantedOnly(st, stream, frameNo, ks[1..], t);
    }
  }

  /** What is kept under a key is the fragment of that key. */
  lemma KeyOfFrame(st: Store, log: seq<Sent>, job: Job, k: nat, key: Key)
    requires Sound(st, log) && job.Valid() && k <= job.Of() && key in st.buffer && st.buffer[key].data == Frame(job, k)
    ensures k <= UINT16_MAX && key == Key(job.frameNo, k)
  {
    hide Frame, Job.Valid, Keyed, Sound;
    FewFragments(job);
    EntryKeyed(st, log, key);
    FrameKeyed(job, k);
    SameKey(log[st.buffer[key].generation - 1], Sent(Key(job.frameNo, k), job.stream, Frame(job, k)));
  }

  lemma EntryKeyed(st: Store, log: seq<Sent>, key: Key)
    requires Sound(st, log) && key in st.buffer
    ensures Genuine(log, key, st.buffer[key]) && Keyed(log[st.buffer[key].generation - 1])
  {
    assert Genuine(log, key, st.buffer[key]);
    hide Keyed;
  }

  lemma SameKey(x: Sent, y: Sent)
    requires Keyed(x) && Keyed(y) && x.data == y.data
    ensures x.key == y.key
  {
    hide Decode;
  }

  lemma NackQueue(st: Store, log: seq<Sent>, b: Bucket)
    requires Sound(st, log) && b.asm.Ok() && NackGaps(b) != []
    ensures Numbers(Asked(b))
    ensures var u := NackEffect(st, NackMessage(b)).0;
      Sound(u, log) && u.queue == st.queue + WantedTickets(st, b.meta.stream, b.savedNo, Asked(b))
  {
    AskedMissing(b);
    EntriesRequest(st, b.meta.stream, b.savedNo, NackGaps(b));
    NackMessageApplied(st, EntryList(b.meta.stream, b.savedNo, NackGaps(b)));
    hide Agree, NackGaps, EntryList, RequestAll, RequestEntries, NackEffect, EncodeNack, Keyed, Asked, Assembly.Ok,
         WantedTickets;
    RequestExact(st, log, b.meta.stream, b.savedNo, Asked(b));
  }

  /** With nothing of the superframe queued, only what is asked for is answered. */
  lemma OnlyAsked(st: Store, log: seq<Sent>, job: Job, b: Bucket, k: nat)
    requires Sound(st, log) && job.Valid() && b.asm.Ok() && b.asm.of == job.Of() && NackGaps(b) != []
    requires b.savedNo == job.frameNo && b.meta.stream == job.stream && Backed(st, job, b)
    requires NoneQueued(st.queue, job.frameNo) && k <= job.Of()
    requires var u := NackEffect(st, NackMessage(b)).0; AmongAnswers(job, AnswersTo(u.buffer, u.queue), k)
    ensures k in Asked(b)
  {
    hide Agree, Keyed, NackGaps, EntryList, RequestAll, RequestEntries, NackEffect, EncodeNack, Frame, Asked, AnswersTo,
         WantedTickets, Backed, Job.Valid, Assembly.Ok;
    var ks, u := Asked(b), NackEffect(st, NackMessage(b)).0;
    NackQueue(st, log, b);
    AskedMissing(b);
    FewFragments(job);
    var answers := AnswersTo(u.buffer, u.queue);
    var i :| 0 <= i < |answers| && answers[i].Retransmit? && answers[i].data == Frame(job, k);
    var t := AnswerTicket(u.buffer, u.queue, answers[i]);
    KeyOfFrame(u, log, job, k, t.key);
    assert t !in st.queue;
    var x := WantedOnly(st, job.stream, job.frameNo, ks, t);
  }

  lemma RoundExact(job: Job, source: Byte, order: int, st: Store, log: seq<Sent>, b: Bucket, more: set<nat>)
    requires job.Valid() && Collects(b, job, source, order) && !Full(job, b.asm.received)
    requires Sound(st, log) && Backed(st, job, b) && NoneQueued(st.queue, job.frameNo) && b.asm.Ok()
    requires var u := NackEffect(st, NackMessage(b)).0; OnlyAnswers(job, Drain(u, |u.queue|).1, b.asm.received, more)
    ensures more <= b.asm.received + AskedSet(b)
  {
    var u := NackEffect(st, NackMessage(b)).0;
    assert b.asm.Ok() && b.asm.of == job.Of() && b.savedNo == job.frameNo && b.meta.stream == job.stream;
    NotFullAsks(b, job);
    hide Sound, NackEffect, NackMessage, NackGaps, Drain, AnswersTo, Frame, Asked, Gaps, Backed, NoneQueued, Job.Valid,
         AmongAnswers, Collects, Assembly.Ok, Full;
    DrainExact(u, |u.queue|);
    forall k <- more | k !in b.asm.received ensures k in Asked(b) { OnlyAsked(st, log, job, b, k); }
  }

  lemma NotFullAsks(b: Bucket, job: Job)
    requires b.asm.Ok() && b.asm.of == job.Of() && !Full(job, b.asm.received)
    ensures NackGaps(b) != []
  {
    AskedEnough(b);
    hide NackGaps, Asked, Gaps, Upto, Assembly.Ok;
  }

  lemma AdvancedMore(job: Job, b: Bucket, c: Bucket)
    requires job.Valid() && b.asm.Ok() && Advanced(job, b, c)
    ensures b.asm.received < c.asm.received && AskedSet(b) <= c.asm.received
  {
    hide Asked, Gaps, Full;
  }

  lemma MoreBacked(st: Store, job: Job, b: Bucket, c: Bucket)
    requires job.Valid() && Backed(st, job, b) && b.asm.received <= c.asm.received
    ensures Backed(st, job, c)
  {
    hide Frame, Held;
  }

  lemma NackSound(st: Store, log: seq<Sent>, message: seq<Byte>)
    requires Sound(st, log)
    ensures Sound(NackEffect(st, message).0, log)
  {
    hide Agree, Keyed, RequestEntries, NackEntriesFrom;
    if |message| >= 3 && |message| == 3 + 6 * (message[2] as nat) {
      EntriesAgree(st, log, NackEntriesFrom(message, 3, message[2] as nat));
    }
  }

  lemma NackBacks(st: Store, job: Job, b: Bucket, message: seq<Byte>)
    requires job.Valid() && Backed(st, job, b)
    ensures Backed(NackEffect(st, message).0, job, b)
  {
    var u := NackEffect(st, message).0;
    if |message| >= 3 && |message| == 3 + 6 * (message[2] as nat) {
      EntriesSame(st, NackEntriesFrom(message, 3, message[2] as nat));
    }
    assert u.buffer == st.buffer;
    hide NackEffect, Backed;
    BackedSame(st, u, job, b);
  }

  lemma PopBacks(st: Store, job: Job, b: Bucket)
    requires job.Valid() && Backed(st, job, b) && st.queue != []
    ensures Backed(Pop(st).0, job, b)
  {
    hide Frame;
    assert forall k | 0 <= k <= job.Of() :: Held(st, job, k) ==> Held(Pop(st).0, job, k);
  }

  lemma {:induction false} DrainBacks(st: Store, log: seq<Sent>, limit: nat, job: Job, b: Bucket)
    requires Sound(st, log) && job.Valid() && Backed(st, job, b)
    ensures Sound(Drain(st, limit).0, log) && Backed(Drain(st, limit).0, job, b)
    decreases |st.queue|
  {
    if st.queue != [] && limit > 0 {
      var (u, a) := Pop(st);
      PopAgrees(st, log);
      PopBacks(st, job, b);
      assert |u.queue| < |st.queue|;
      hide Agree, Keyed, Backed, Pop;
      DrainBacks(u, log, if a.Nothing? then limit else limit - 1, job, b);
    }
  }

  lemma ApplySound(cfg: Config, s: State, log: seq<Sent>, op: Op) returns (more: seq<Sent>)
    requires cfg.Valid() && Sound(s.store, log) && Accepted(cfg, op)
    ensures Sound(Apply(cfg, s, op).store, more)
  {
    var job, st := OpJob(cfg, s, op), Evicted(cfg, s, op.now);
    EvictAgrees(LimitsOf(cfg), s.store, op.now, 0, log);
    SendIs(cfg, s, op);
    hide Agree, Evict, SendJob, Apply, OpJob, Accepted, Keyed, FramesLog, RetainFrames, Passes, Wrappers, Alone,
         Job.Valid;
    more := log + FramesLog(LimitsOf(cfg), job, 0, job.Of() + 1);
    SendJobIs(cfg, st, job, op.now);
    if cfg.mode.Single? || job.Of() == 0 {
      FramesAgree(LimitsOf(cfg), st, log, job, 0, job.Of() + 1, op.now);
    } else {
      BundledAgrees(cfg, st, log, job, op.now);
    }
    FramesKeyed(LimitsOf(cfg), job, 0);
  }

  lemma BundledAgrees(cfg: Config, st: Store, log: seq<Sent>, job: Job, now: int)
    requires cfg.Valid() && Agree(st, log) && job.Valid()
    ensures job.cut.type1s <= job.Of() + 1
    ensures Agree(RetainFrames(LimitsOf(cfg), Passes(cfg, st, job, 0, now).0, job, job.cut.type1s, job.Of() + 1, now),
                  log + FramesLog(LimitsOf(cfg), job, 0, job.Of() + 1))
  {
    var lim, n := LimitsOf(cfg), job.cut.type1s;
    assert n <= job.Of();
    hide Agree, Passes, RetainFrames, Job.Valid, FramesLog;
    PassesAgree(cfg, st, log, job, 0, now);
    FramesAgree(lim, Passes(cfg, st, job, 0, now).0, log + FramesLog(lim, job, 0, n), job, n, job.Of() + 1, now);
    WholeLog(lim, job, n, log);
  }

  lemma {:induction false} FramesKeyed(lim: Limits, job: Job, lo: nat)
    requires job.Valid() && lo <= job.Of() + 1
    ensures forall x <- FramesLog(lim, job, lo, job.Of() + 1) :: Keyed(x)
    decreases job.Of() + 1 - lo
  {
    hide Keyed, Frame, Job.Valid;
    if lo < job.Of() + 1 {
      FrameKeyed(job, lo);
      FramesKeyed(lim, job, lo + 1);
    }
  }
}
