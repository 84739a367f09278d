/** The NACK round once more, with the sweep that `receive` makes after every packet in RUN_TO_COMPLETION mode, and
    without it in THREADED mode. */
module SweptRounds {
  import opened Wire
  import opened Fragmenter
  import opened FrameMemory
  import opened NackRanges
  import opened Results
  import opened Retention
  import opened RetentionRuns
  import opened SenderSpec
  import opened SenderRuns
  import opened ReceiverSpec
  import opened ReceiverRuns
  import opened EndToEnd
  import opened FrameOrder
  import opened Transmission
  import opened Repair
  import opened SweepNacks

  /** The packets of the answers go through `receive` one after the other. */
  function Receives(cfg: Settings, s: Receiver, answers: seq<Answer>, source: Byte, now: int,
                    delay: int -> int): (t: Receiver)
    requires s.TableOk() && forall i | 0 <= i < |answers| :: answers[i].Retransmit?
    ensures t.TableOk()
    decreases |answers|
  {
    if answers == [] then s
    else Receives(cfg, Step(cfg, s, Arrive(answers[0].data, source, now, delay)), answers[1..], source,
                  now, delay)
  }

  /** The frame of the job was delivered in between. */
  predicate CameOut(job: Job, source: Byte, order: int, before: seq<Delivered>, after: seq<Delivered>) {
    Having(before, order) + [Expected(job, source, order)] <= Having(after, order)
  }

  /** It came out when the bucket had these fragments. */
  predicate CameFull(job: Job, source: Byte, order: int, before: seq<Delivered>, after: seq<Delivered>, got: set<nat>) {
    CameOut(job, source, order, before, after) && Full(job, got)
  }

  lemma HavingPrefix(a: seq<Delivered>, b: seq<Delivered>, order: int)
    requires a <= b
    ensures Having(a, order) <= Having(b, order)
  {
    HavingConcat(a, b[|a|..], order);
    hide Having;
    assert b == a + b[|a|..];
  }

  lemma CameOutStays(job: Job, source: Byte, order: int, a: seq<Delivered>, b: seq<Delivered>, c: seq<Delivered>)
    requires CameOut(job, source, order, a, b) && b <= c
    ensures CameOut(job, source, order, a, c)
  {
    HavingPrefix(b, c, order);
    hide Having, Expected;
  }

  /** The bucket still collects, nothing came out, and no sweep has found it full. */
  ghost predicate StillCollects(cfg: Settings, s: Receiver, t: Receiver, job: Job, source: Byte, order: int, start: int,
                                got: set<nat>)
  {
    && Follows(cfg, t, job, source, order, start, Collecting(got))
    && Having(t.delivered, order) == Having(s.delivered, order) && !(cfg.autoSweep && Full(job, got))
  }

  function TimingOf(s: Receiver, job: Job): Timing
    requires s.TableOk()
  {
    s.buckets[s.Index(job.frameNo)].timing
  }

  /** A sweep that comes now sends no NACK for a bucket with these times. */
  predicate Resting(cfg: Settings, t: Timing, now: int, delayUs: int) {
    cfg.autoSweep ==> now < NackBase(t) + delayUs
  }

  /** One answer is received: its fragment is added, and a frame that it completes is delivered by the sweep. */
  lemma OneReceived(cfg: Settings, s: Receiver, job: Job, source: Byte, order: int, start: int, got: set<nat>,
                    data: seq<Byte>, now: int, delay: int -> int)
    returns (more: set<nat>)
    requires Follows(cfg, s, job, source, order, start, Collecting(got)) && (cfg.autoSweep ==> Early(cfg, start, now))
    requires job.Valid() && Harmless(job, data) && s.TableOk()
    ensures got <= more && forall k | 0 <= k <= job.Of() && data == Frame(job, k) :: k in more
    ensures forall k <- more :: k in got || (k <= job.Of() && data == Frame(job, k))
    ensures var t := Step(cfg, s, Arrive(data, source, now, delay));
      && s.delivered <= t.delivered
      && (CameFull(job, source, order, s.delivered, t.delivered, more)
          || StillCollects(cfg, s, t, job, source, order, start, more))
      && (Resting(cfg, TimingOf(s, job), now, delay(order)) ==> TimingOf(t, job) == TimingOf(s, job))
  {
    hide Dispatch, Collects, Harmless, Good, Receiver.BucketsOk, Receiver.Pending, Receiver.Listed, Frame, Sweep,
         Having, Expected, Step, Early, Sweeps, Full, StartedAt, Job.Valid;
    var e := Arrive(data, source, now, delay);
    StepExtends(cfg, s, e);
    StepIs(cfg, s, e);
    OneArrives(cfg, s, job, source, order, data, now);
    DispatchKeepsTable(cfg, s, data, source, now);
    var u, i := Dispatch(cfg, s, data, source, now).0, s.Index(job.frameNo);
    more := u.buckets[i].asm.received;
    SameStart(cfg, s, u, job, start);
    assert Follows(cfg, u, job, source, order, start, Collecting(more));
    HarmlessSweeps(cfg, job, e);
    TimingArrived(cfg, s, u, job);
    hide Follows, StillCollects, CameOut, Resting, TimingOf;
    MaybeSwept(cfg, s, u, job, source, order, start, more, now, delay);
  }

  lemma TimingArrived(cfg: Settings, s: Receiver, u: Receiver, job: Job)
    requires s.TableOk() && u.TableOk() && |u.buckets| == |s.buckets|
    requires u.buckets[s.Index(job.frameNo)].timing == s.buckets[s.Index(job.frameNo)].timing
    ensures TimingOf(u, job) == TimingOf(s, job)
  {
  }

  lemma HarmlessSweeps(cfg: Settings, job: Job, e: ReceiverRuns.Event)
    requires job.Valid() && e.Arrive? && Harmless(job, e.data)
    ensures Sweeps(cfg, e) <==> cfg.autoSweep
  {
    hide Job.Valid, Encode;
    forall k | 0 <= k <= job.Of() ensures Readable(Frame(job, k)) { FrameReadable(job, k); }
  }

  lemma FrameReadable(job: Job, k: nat)
    requires job.Valid() && k <= job.Of()
    ensures Readable(Frame(job, k))
  {
    DecodeEncode(job.Fragment(k));
  }

  lemma MaybeSwept(cfg: Settings, s: Receiver, u: Receiver, job: Job, source: Byte, order: int, start: int,
                   more: set<nat>, now: int, delay: int -> int)
    requires Follows(cfg, u, job, source, order, start, Collecting(more)) && (cfg.autoSweep ==> Early(cfg, start, now))
    requires u.TableOk() && u.delivered == s.delivered
    ensures var t := if cfg.autoSweep then Sweep(cfg, u, now, delay) else u;
      && (CameFull(job, source, order, s.delivered, t.delivered, more)
          || StillCollects(cfg, s, t, job, source, order, start, more))
      && (Resting(cfg, TimingOf(u, job), now, delay(order)) ==> TimingOf(t, job) == TimingOf(u, job))
  {
    hide Follows, Early, Full, Having, Expected, Sweep, Receiver.TableOk, TimingOf;
    if cfg.autoSweep {
      SweepFollows(cfg, u, job, source, order, start, Collecting(more), now, delay);
      if Resting(cfg, TimingOf(u, job), now, delay(order)) {
        SweepRests(cfg, u, job, source, order, start, more, now, delay);
      }
    }
  }

  lemma SweepRests(cfg: Settings, u: Receiver, job: Job, source: Byte, order: int, start: int, got: set<nat>, now: int,
                   delay: int -> int)
    requires Follows(cfg, u, job, source, order, start, Collecting(got)) && u.TableOk()
    requires now < NackBase(TimingOf(u, job)) + delay(order)
    ensures TimingOf(Sweep(cfg, u, now, delay), job) == TimingOf(u, job)
  {
    hide Sweep, MessagesFor, NackMessage, Assembly.Complete, Good, StartedAt, Assembly.Ok, Receiver.BucketsOk,
         Receiver.Pending, Receiver.Listed;
    SweepAsks(cfg, u, now, delay, u.Index(job.frameNo));
  }

  /** All answers are received: every fragment among them was added, or the frame has come out on the way. */
  lemma {:induction false} AllReceived(cfg: Settings, s: Receiver, job: Job, source: Byte, order: int, start: int,
                                       got: set<nat>, answers: seq<Answer>, now: int,
                                       delay: int -> int)
    returns (more: set<nat>)
    requires Follows(cfg, s, job, source, order, start, Collecting(got)) && (cfg.autoSweep ==> Early(cfg, start, now))
    requires job.Valid() && s.TableOk() && !(cfg.autoSweep && Full(job, got))
    requires forall i | 0 <= i < |answers| :: answers[i].Retransmit? && Harmless(job, answers[i].data)
    ensures got <= more && OnlyAnswers(job, answers, got, more)
    ensures var t := Receives(cfg, s, answers, source, now, delay);
      && s.delivered <= t.delivered
      && (CameFull(job, source, order, s.delivered, t.delivered, more)
          || (StillCollects(cfg, s, t, job, source, order, start, more) && AnswersGot(job, answers, more)
              && (Resting(cfg, TimingOf(s, job), now, delay(order)) ==> TimingOf(t, job) == TimingOf(s, job))))
    decreases |answers|
  {
    hide Follows, Early, Full, Having, Expected, Step, Receiver.TableOk, Harmless, Frame, Job.Valid, CameOut,
         AmongAnswers, TimingOf, Resting, OnlyAnswers, AnswersGot;
    OnlyNone(job, answers, got);
    more := got;
    if answers != [] {
      var mid := OneReceived(cfg, s, job, source, order, start, got, answers[0].data, now, delay);
      var m := Step(cfg, s, Arrive(answers[0].data, source, now, delay));
      var t := Receives(cfg, s, answers, source, now, delay);
      OnlyFirst(job, answers, got, mid);
      if CameFull(job, source, order, s.delivered, m.delivered, mid) {
        more := mid;
        ReceivesExtends(cfg, m, answers[1..], source, now, delay);
        CameOutStays(job, source, order, s.delivered, m.delivered, t.delivered);
      } else {
        more := AllReceived(cfg, m, job, source, order, start, mid, answers[1..], now, delay);
        SameBefore(job, source, order, s.delivered, m.delivered, t.delivered);
        OnlyStep(job, answers, got, mid, more);
        if AnswersGot(job, answers[1..], more) { GotStep(job, answers, mid, more); }
      }
    }
  }

  lemma OnlyNone(job: Job, answers: seq<Answer>, got: set<nat>)
    requires job.Valid()
    ensures OnlyAnswers(job, answers, got, got) && (answers == [] ==> AnswersGot(job, answers, got))
  {
    hide Frame, AmongAnswers, Job.Valid;
  }

  lemma OnlyFirst(job: Job, answers: seq<Answer>, got: set<nat>, mid: set<nat>)
    requires job.Valid() && answers != [] && answers[0].Retransmit?
    requires forall k <- mid :: k in got || (k <= job.Of() && answers[0].data == Frame(job, k))
    ensures OnlyAnswers(job, answers, got, mid)
  {
    hide Frame, Job.Valid;
  }

  lemma SameBefore(job: Job, source: Byte, order: int, a: seq<Delivered>, b: seq<Delivered>, c: seq<Delivered>)
    requires Having(a, order) == Having(b, order)
    ensures CameOut(job, source, order, a, c) <==> CameOut(job, source, order, b, c)
  {
    hide Having, Expected;
  }

  lemma {:induction false} ReceivesExtends(cfg: Settings, s: Receiver, answers: seq<Answer>, source: Byte, now: int,
                                           delay: int -> int)
    requires s.TableOk() && forall i | 0 <= i < |answers| :: answers[i].Retransmit?
    ensures s.delivered <= Receives(cfg, s, answers, source, now, delay).delivered
    decreases |answers|
  {
    hide Step, Receiver.TableOk;
    if answers != [] {
      var e := Arrive(answers[0].data, source, now, delay);
      StepExtends(cfg, s, e);
      ReceivesExtends(cfg, Step(cfg, s, e), answers[1..], source, now, delay);
    }
  }

  /** In THREADED mode a packet delivers nothing. */
  lemma {:induction false} ReceivesQuiet(cfg: Settings, s: Receiver, answers: seq<Answer>, source: Byte, now: int,
                                         delay: int -> int)
    requires s.TableOk() && !cfg.autoSweep && forall i | 0 <= i < |answers| :: answers[i].Retransmit?
    ensures Receives(cfg, s, answers, source, now, delay).delivered == s.delivered
    decreases |answers|
  {
    hide Step, Receiver.TableOk;
    if answers != [] {
      var e := Arrive(answers[0].data, source, now, delay);
      StepIs(cfg, s, e);
      ReceivesQuiet(cfg, Step(cfg, s, e), answers[1..], source, now, delay);
    }
  }

  /** One loss-free round through `receive`, in either mode, before the bucket's deadlines if it sweeps: the frame comes
      out, or the bucket has every fragment it asked for. In RUN_TO_COMPLETION mode it comes out if 255
      ranges sufficed. */
  lemma RoundThroughReceive(cfg: Settings, s: Receiver, job: Job, source: Byte, order: int, start: int, got: set<nat>,
                            st: Store, log: seq<Sent>, limit: nat, now: int, delay: int -> int)
    returns (more: set<nat>)
    requires Follows(cfg, s, job, source, order, start, Collecting(got)) && s.TableOk()
    requires job.Valid() && (cfg.autoSweep ==> Early(cfg, start, now))
    requires !Full(job, got)
    requires Sound(st, log) && Backed(st, job, s.buckets[s.Index(job.frameNo)])
    requires |NackEffect(st, NackMessage(s.buckets[s.Index(job.frameNo)])).0.queue| <= limit
    ensures var b := s.buckets[s.Index(job.frameNo)];
      var (u, r) := NackEffect(st, NackMessage(b));
      && r == Ok
      && (forall i | 0 <= i < |Drain(u, limit).1| :: Drain(u, limit).1[i].Retransmit?)
      && var t := Receives(cfg, s, Drain(u, limit).1, source, now, delay);
         var out, c := CameOut(job, source, order, s.delivered, t.delivered), t.buckets[t.Index(job.frameNo)];
         && s.delivered <= t.delivered
         && OnlyAnswers(job, Drain(u, limit).1, got, more)
         && (CameFull(job, source, order, s.delivered, t.delivered, more)
             || (Collects(c, job, source, order) && c.asm.received == more && Advanced(job, b, c)
                 && StillCollects(cfg, s, t, job, source, order, start, more)
                 && (Resting(cfg, b.timing, now, delay(order)) ==> c.timing == b.timing)))
         && (cfg.autoSweep && |Gaps(got, 0, job.Of() + 1)| <= 255 ==> out)
  {
    var b := s.buckets[s.Index(job.frameNo)];
    assert Collects(b, job, source, order) && b.asm.received == got;
    assert b.asm.Ok() && b.asm.of == job.Of() && b.savedNo == job.frameNo && b.meta.stream == job.stream;
    hide Collects, NackEffect, NackMessage, Asked, Gaps, Sound, Frame, Receiver.TableOk, Upto, Full, Drain, Backed,
         Harmless, Good, Receives, AnswersAsked, AnswersGot, AsksAll, Assembly.Ok, Job.Valid, Advanced, Follows, Early,
         StillCollects, CameOut;
    RoundAnswers(st, log, job, b, limit);
    var answers := Drain(NackEffect(st, NackMessage(b)).0, limit).1;
    more := AllReceived(cfg, s, job, source, order, start, got, answers, now, delay);
    var t := Receives(cfg, s, answers, source, now, delay);
    if !CameFull(job, source, order, s.delivered, t.delivered, more) {
      var c := StillThere(cfg, s, t, job, source, order, start, more);
      FinishRound(job, source, order, b, answers, c);
      NotFull(cfg, s, t, job, source, order, start, more, b, c);
    }
  }

  lemma StillThere(cfg: Settings, s: Receiver, t: Receiver, job: Job, source: Byte, order: int, start: int,
                   more: set<nat>)
    returns (c: Bucket)
    requires StillCollects(cfg, s, t, job, source, order, start, more) && t.TableOk()
    ensures c == t.buckets[t.Index(job.frameNo)] && Collects(c, job, source, order) && c.asm.received == more
  {
    c := t.buckets[t.Index(job.frameNo)];
  }

  lemma NotFull(cfg: Settings, s: Receiver, t: Receiver, job: Job, source: Byte, order: int, start: int, more: set<nat>,
                b: Bucket, c: Bucket)
    requires job.Valid() && StillCollects(cfg, s, t, job, source, order, start, more) && c.asm.received == more
    requires b.asm.Ok() && Advanced(job, b, c) && b.asm.of == job.Of()
    ensures cfg.autoSweep ==> |Gaps(b.asm.received, 0, job.Of() + 1)| > 255
  {
    hide Follows, Full, Gaps;
  }
}
