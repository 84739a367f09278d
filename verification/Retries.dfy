/** How many NACKs a loss costs. The receiver asks in its sweeps: it sends a limited number of NACKs for each bucket,
    no two closer than the delay, each for at most 255 ranges, and gives the bucket up at its deadline. */
module Retries {
  import opened Wire
  import opened Fragmenter
  import opened FrameMemory
  import opened Placement
  import opened NackRanges
  import opened Ordering
  import opened Results
  import opened Retention
  import opened RetentionRuns
  import opened SenderSpec
  import opened Retransmits
  import opened SenderRuns
  import opened Keeping
  import opened NackService
  import opened ReceiverSpec
  import opened ReceiverRuns
  import opened SweepNacks
  import opened FrameOrder
  import opened EndToEnd
  import opened Transmission
  import opened Repair
  import opened SweptRounds
  import opened Holding

  function Got(s: Receiver, job: Job): set<nat>
    requires s.TableOk()
  {
    s.buckets[s.Index(job.frameNo)].asm.received
  }

  /** The bucket collects the job, and the sender can repair it. */
  ghost predicate Mending(cfg: Settings, s: Receiver, job: Job, source: Byte, order: int, start: int, st: Store,
                          log: seq<Sent>)
  {
    && s.TableOk() && Follows(cfg, s, job, source, order, start, Collecting(Got(s, job)))
    && !(cfg.autoSweep && Full(job, Got(s, job)))
    && Sound(st, log) && Backed(st, job, s.buckets[s.Index(job.frameNo)])
  }

  // ----- one sweep -----

  /** A sweep, with the delays that count at that time. */
  datatype Turn = Turn(now: int, delay: int -> int)

  /** It comes before the deadlines. Where each packet is followed by a sweep of its own, that sweep does not ask
      again: the delay is positive, as it is until 10 ms before the deadline. */
  predicate InGoodTime(cfg: Settings, start: int, order: int, e: Turn) {
    0 < e.now && Early(cfg, start, e.now) && (cfg.autoSweep ==> 0 < e.delay(order))
  }

  /** The receiver sweeps. If that sends a NACK for this bucket, the message is answered in full. */
  function SweptRound(cfg: Settings, s: Receiver, st: Store, no: Word16, source: Byte, e: Turn):
    (r: (Receiver, Store))
    requires s.TableOk()
    ensures r.0.TableOk()
  {
    var b, t := s.buckets[s.Index(no)], Sweep(cfg, s, e.now, e.delay);
    if b.active && SendsNack(cfg, b, e.now, e.delay(b.order)) then
      Round(cfg, t, st, NackMessage(b), source, e.now, e.delay)
    else (t, st)
  }

  /** A NACK is sent when the delay is over. */
  lemma NackSent(cfg: Settings, s: Receiver, job: Job, source: Byte, order: int, start: int, now: int,
                 delay: int -> int)
    requires s.TableOk() && Follows(cfg, s, job, source, order, start, Collecting(Got(s, job)))
    requires job.Valid() && !Full(job, Got(s, job)) && TimingOf(s, job).nackCount < cfg.maxNackRetries
    ensures var b := s.buckets[s.Index(job.frameNo)];
      b.active && b.order == order && b.asm.Ok()
      && (SendsNack(cfg, b, now, delay(order)) <==> NackBase(b.timing) + delay(order) <= now)
  {
    var b := s.buckets[s.Index(job.frameNo)];
    IncompleteFrame(b, job, source, order);
    assert b.asm.of == job.Of();
    hide Receiver.TableOk, NackMessage, Full, Assembly.Ok, Assembly.Complete, Good, Placed;
    NotFullAsks(b, job);
    MessageSent(b);
  }

  lemma MessageSent(b: Bucket)
    requires b.asm.Ok() && NackGaps(b) != []
    ensures NackMessage(b) != []
  {
    hide NackGaps, Assembly.Ok;
  }

  lemma TimingOnly(b: Bucket, d: Bucket, job: Job, source: Byte, order: int)
    requires job.Valid() && Collects(b, job, source, order) && d == b.(timing := d.timing)
    ensures Collects(d, job, source, order) && b.asm.Ok() && NackMessage(d) == NackMessage(b)
  {
    hide Placed, Assembly.Ok, NackGaps, Expected;
    assert NackGaps(d) == NackGaps(b) by { SameGaps(b, d); }
  }

  lemma SameGaps(b: Bucket, d: Bucket)
    requires b.asm.Ok() && d.asm == b.asm
    ensures NackGaps(d) == NackGaps(b)
  {
    hide Assembly.Ok, Gaps;
  }

  lemma SameBacked(st: Store, job: Job, b: Bucket, d: Bucket)
    requires job.Valid() && Backed(st, job, b) && d.asm == b.asm
    ensures Backed(st, job, d)
  {
    hide Frame, Held;
  }

  /** The messages sent between two states. */
  function NacksSince(s: Receiver, t: Receiver): seq<seq<Byte>> {
    if |s.nacks| <= |t.nacks| then t.nacks[|s.nacks|..] else []
  }

  /** What a sweep makes of the job's bucket: its NACK bookkeeping, and the message if there is one. */
  ghost predicate Asking(cfg: Settings, s: Receiver, t: Receiver, job: Job, order: int, now: int, delayUs: int)
    requires s.TableOk() && t.TableOk()
  {
    var b, d := s.buckets[s.Index(job.frameNo)], t.buckets[t.Index(job.frameNo)];
    && |t.buckets| == |s.buckets| && b.active && b.order == order && b.asm.Ok() && b.asm.of == job.Of()
    && d.asm == b.asm && NackMessage(d) == NackMessage(b) && d.timing == Noted(cfg, b, now, delayUs).timing
    && (SendsNack(cfg, b, now, delayUs) ==> NackMessage(b) in NacksSince(s, t))
  }

  /** Before the deadlines a sweep changes nothing of an incomplete bucket but its NACK bookkeeping. */
  lemma SweepKeeps(cfg: Settings, s: Receiver, job: Job, source: Byte, order: int, start: int, st: Store,
                   log: seq<Sent>, now: int, delay: int -> int)
    requires s.TableOk() && job.Valid() && !Full(job, Got(s, job)) && Early(cfg, start, now)
    requires Mending(cfg, s, job, source, order, start, st, log)
    ensures var t := Sweep(cfg, s, now, delay);
      && Mending(cfg, t, job, source, order, start, st, log) && Having(t.delivered, order) == Having(s.delivered, order)
      && s.delivered <= t.delivered && Asking(cfg, s, t, job, order, now, delay(order))
  {
    var i, t := s.Index(job.frameNo), Sweep(cfg, s, now, delay);
    assert Collects(s.buckets[i], job, source, order);
    hide Sweep, Having, Expected, Collects, Receiver.BucketsOk, Receiver.Pending, Receiver.Listed, Good, Full, Sound,
         Backed, Due, Asking, Job.Valid, StartedAt;
    SweepFollows(cfg, s, job, source, order, start, Collecting(Got(s, job)), now, delay);
    EarlyNotDue(cfg, s, job, source, order, start, Collecting(Got(s, job)), now, delay);
    SweepBucket(cfg, s, now, delay, i);
    StepExtends(cfg, s, Tick(now, delay));
    Bookkeeping(cfg, s, job, source, order, now, delay);
    SameBacked(st, job, s.buckets[i], t.buckets[i]);
  }

  lemma Bookkeeping(cfg: Settings, s: Receiver, job: Job, source: Byte, order: int, now: int, delay: int -> int)
    requires s.TableOk() && job.Valid() && Collects(s.buckets[s.Index(job.frameNo)], job, source, order)
    requires |Sweep(cfg, s, now, delay).buckets| == |s.buckets|
    requires OnlyNackTiming(s.buckets[s.Index(job.frameNo)],
                            Sweep(cfg, s, now, delay).buckets[s.Index(job.frameNo)])
    ensures var t := Sweep(cfg, s, now, delay); Asking(cfg, s, t, job, order, now, delay(order))
    ensures Sweep(cfg, s, now, delay).buckets[s.Index(job.frameNo)].asm == s.buckets[s.Index(job.frameNo)].asm
  {
    var i, t := s.Index(job.frameNo), Sweep(cfg, s, now, delay);
    assert s.buckets[i].active && s.buckets[i].order == order && s.buckets[i].asm.Ok();
    assert s.buckets[i].asm.of == job.Of();
    TimingOnly(s.buckets[i], t.buckets[i], job, source, order);
    hide Sweep, Collects, Receiver.TableOk, MessagesFor, NackMessage, Noted, SendsNack, Job.Valid;
    SweepAsks(cfg, s, now, delay, i);
  }

  /** At a deadline the bucket is given up incomplete, by the very sweep that may still ask for the rest. */
  lemma GivenUp(cfg: Settings, s: Receiver, job: Job, source: Byte, order: int, start: int, now: int,
                delay: int -> int)
    requires s.TableOk() && job.Valid() && Follows(cfg, s, job, source, order, start, Collecting(Got(s, job)))
    requires !Full(job, Got(s, job)) && Due(cfg, s.buckets[s.Index(job.frameNo)], now)
    ensures s.buckets[s.Index(job.frameNo)].asm.Ok()
    ensures var b, t := s.buckets[s.Index(job.frameNo)], Sweep(cfg, s, now, delay);
      && !t.buckets[t.Index(job.frameNo)].active && DeliveredFrame(b).broken
      && Having(t.delivered, order) == Having(s.delivered, order) + [DeliveredFrame(b)]
      && (SendsNack(cfg, b, now, delay(order)) ==> NackMessage(b) in NacksSince(s, t))
  {
    var i := s.Index(job.frameNo);
    assert s.buckets[i].active && s.buckets[i].order == order;
    NoMore(s.buckets[i], job, source, order);
    hide Sweep, Having, Due, Collects, Receiver.BucketsOk, Receiver.Pending, Receiver.Listed, Good, DeliveredFrame,
         Upto, MessagesFor, NackMessage, SendsNack, Noted, Job.Valid, StartedAt;
    BrokenSweep(cfg, s, job, source, order, start, Got(s, job), now, delay);
    SweepBucket(cfg, s, now, delay, i);
    SweepAsks(cfg, s, now, delay, i);
  }

  // ----- what is left -----

  /** How many ranges are missing. */
  function Left(s: Receiver, job: Job): nat
    requires s.TableOk()
  {
    |Gaps(Got(s, job), 0, job.Of() + 1)|
  }

  /** How many messages ask for that many ranges. */
  function Messages(ranges: nat): nat { (ranges + 254) / 255 }

  lemma OneMessage(ranges: nat)
    ensures Messages(0) == 0
    ensures 0 < ranges <= 255 ==> Messages(ranges) == 1
    ensures 0 < ranges ==> Messages(ranges) == 1 + Messages(if ranges > 255 then ranges - 255 else 0)
  {
  }

  /** If nothing of the superframe was queued, a round takes off the first 255 ranges and adds none. */
  lemma RangesShrink(b: Bucket, more: set<nat>, of: nat)
    requires b.asm.Ok() && b.asm.of == of && more == b.asm.received + AskedSet(b)
    ensures var n, m := |Gaps(b.asm.received, 0, of + 1)|, |Gaps(more, 0, of + 1)|;
      m == if n > 255 then n - 255 else 0
  {
    var gaps := Gaps(b.asm.received, 0, of + 1);
    var n := if |gaps| > 255 then 255 else |gaps|;
    assert Asked(b) == Expand(gaps[..n]) by { assert |gaps| <= 255 ==> gaps[..n] == gaps; }
    hide Gaps, Asked, Assembly.Ok, Expand;
    GapsAfter(b.asm.received, more, 0, of + 1, n);
  }

  lemma FullNoRanges(job: Job, got: set<nat>)
    requires got <= Upto(job.Of() + 1)
    ensures Full(job, got) <==> Gaps(got, 0, job.Of() + 1) == []
  {
    hide Gaps, Missing, Expand;
    GapsExact(got, 0, job.Of() + 1);
    MissingIs(got, 0, job.Of() + 1);
    ExpandAny(Gaps(got, 0, job.Of() + 1));
    NothingMissing(job, got, Missing(got, 0, job.Of() + 1));
  }

  lemma NothingMissing(job: Job, got: set<nat>, missing: seq<nat>)
    requires got <= Upto(job.Of() + 1) && forall k :: k in missing <==> 0 <= k < job.Of() + 1 && k !in got
    ensures Full(job, got) <==> missing == []
  {
    if missing != [] { assert missing[0] in missing; }
    if missing == [] { assert forall k :: k in Upto(job.Of() + 1) ==> k in got; }
  }

  lemma ExpandAny(gaps: seq<Gap>)
    ensures gaps != [] <==> Expand(gaps) != []
  {
  }

  lemma {:induction false} AtMostAll(got: set<nat>, n: nat)
    requires got <= Upto(n)
    ensures |got| <= n && (|got| == n <==> got == Upto(n))
  {
    UptoSize(n);
    assert Upto(n) == got + (Upto(n) - got);
    assert |Upto(n)| == |got| + |Upto(n) - got|;
  }

  lemma {:induction false} UptoSize(n: nat)
    ensures |Upto(n)| == n
  {
    if n > 0 {
      UptoSize(n - 1);
      assert Upto(n) == Upto(n - 1) + {n - 1};
    }
  }

  lemma Larger(a: set<nat>, b: set<nat>)
    requires a < b
    ensures |a| + 1 <= |b|
  {
    assert b == a + (b - a);
    assert |b| == |a| + |b - a|;
  }

  lemma LeftAfter(s: Receiver, t: Receiver, job: Job, d: Bucket, more: set<nat>)
    requires s.TableOk() && t.TableOk() && d.asm.Ok() && d.asm.of == job.Of() && d.asm.received == Got(s, job)
    requires more == Got(t, job) == Got(s, job) + AskedSet(d)
    ensures Left(t, job) == if Left(s, job) > 255 then Left(s, job) - 255 else 0
  {
    hide Gaps, AskedSet, Asked, Got, Assembly.Ok, Receiver.TableOk;
    RangesShrink(d, more, job.Of());
  }

  /** If a round for nothing else completes the bucket, one message could ask for all. */
  lemma FullMeansFew(s: Receiver, job: Job, d: Bucket, more: set<nat>)
    requires s.TableOk() && d.asm.Ok() && d.asm.of == job.Of() && d.asm.received == Got(s, job)
    requires more <= Got(s, job) + AskedSet(d) && Full(job, more)
    ensures Left(s, job) <= 255
  {
    hide Gaps, AskedSet, Got, Assembly.Ok, Receiver.TableOk, Upto;
    var all := d.asm.received + AskedSet(d);
    AllWithin(d);
    RangesShrink(d, all, job.Of());
    assert all == Upto(job.Of() + 1);
    FullNoRanges(job, all);
  }

  lemma AllWithin(d: Bucket)
    requires d.asm.Ok()
    ensures d.asm.received <= Upto(d.asm.of + 1) && AskedSet(d) <= Upto(d.asm.of + 1)
  {
    assert d.asm.received <= Upto(d.asm.of + 1);
    hide Asked, Assembly.Ok;
    AskedMissing(d);
  }

  lemma StillMending(cfg: Settings, s: Receiver, m: Receiver, t: Receiver, job: Job, source: Byte, order: int,
                     start: int, u: Store, log: seq<Sent>, d: Bucket, more: set<nat>)
    requires s.TableOk() && t.TableOk() && job.Valid() && StillCollects(cfg, m, t, job, source, order, start, more)
    requires t.buckets[t.Index(job.frameNo)].asm.received == more
    requires d.asm.Ok() && d.asm.received == Got(s, job)
    requires Advanced(job, d, t.buckets[t.Index(job.frameNo)])
    requires Having(m.delivered, order) == Having(s.delivered, order)
    requires Sound(u, log) && Backed(u, job, t.buckets[t.Index(job.frameNo)])
    ensures Mending(cfg, t, job, source, order, start, u, log) && Got(t, job) == more && |Got(s, job)| < |more|
    ensures Having(t.delivered, order) == Having(s.delivered, order)
  {
    hide Follows, Full, Having, Asked, Gaps, Sound, Backed, Job.Valid, Receiver.TableOk, Assembly.Ok;
    Larger(d.asm.received, more);
  }

  /** A sweep before the delay is over asks for nothing. */
  lemma TurnRests(cfg: Settings, s: Receiver, job: Job, source: Byte, order: int, start: int, st: Store,
                  log: seq<Sent>, e: Turn)
    requires Mending(cfg, s, job, source, order, start, st, log) && s.TableOk() && job.Valid()
    requires InGoodTime(cfg, start, order, e) && !Full(job, Got(s, job))
    requires TimingOf(s, job).nackCount < cfg.maxNackRetries && e.now < NackBase(TimingOf(s, job)) + e.delay(order)
    ensures var (t, u) := SweptRound(cfg, s, st, job.frameNo, source, e);
      && u == st && Mending(cfg, t, job, source, order, start, st, log) && Got(t, job) == Got(s, job)
      && TimingOf(t, job) == TimingOf(s, job) && Having(t.delivered, order) == Having(s.delivered, order)
  {
    hide Sweep, Having, Full, NackMessage, Receiver.BucketsOk, Receiver.Pending, Receiver.Listed, Follows, Sound,
         Backed, Early, SendsNack, Job.Valid, NackBase;
    NackSent(cfg, s, job, source, order, start, e.now, e.delay);
    SweepKeeps(cfg, s, job, source, order, start, st, log, e.now, e.delay);
  }

  /** The frame came out complete; in THREADED mode exactly once, and with so many NACKs. */
  ghost predicate Repaired(cfg: Settings, before: seq<Delivered>, t: Receiver, job: Job, source: Byte, order: int,
                           start: int, count: nat)
  {
    && t.TableOk() && CameOut(job, source, order, before, t.delivered)
    && (!cfg.autoSweep ==>
          && Follows(cfg, t, job, source, order, start, Done) && !t.buckets[t.Index(job.frameNo)].active
          && Having(t.delivered, order) == Having(before, order) + [Expected(job, source, order)]
          && TimingOf(t, job).nackCount == count)
  }

  /** A sweep after the delay asks. Then the frame comes out, or the bucket has more than before: exactly what was
      asked for, if nothing of the superframe was queued. */
  lemma TurnAsks(cfg: Settings, s: Receiver, job: Job, source: Byte, order: int, start: int, st: Store,
                 log: seq<Sent>, e: Turn)
    requires Mending(cfg, s, job, source, order, start, st, log) && s.TableOk() && job.Valid()
    requires InGoodTime(cfg, start, order, e) && !Full(job, Got(s, job))
    requires TimingOf(s, job).nackCount < cfg.maxNackRetries && NackBase(TimingOf(s, job)) + e.delay(order) <= e.now
    ensures var (t, u) := SweptRound(cfg, s, st, job.frameNo, source, e);
      var b := s.buckets[s.Index(job.frameNo)];
      && b.asm.Ok() && NackMessage(b) in NacksSince(s, Sweep(cfg, s, e.now, e.delay))
      && NoneQueued(u.queue, job.frameNo)
      && ((cfg.autoSweep && CameOut(job, source, order, s.delivered, t.delivered)
           && (NoneQueued(st.queue, job.frameNo) ==> Left(s, job) <= 255))
          || (&& Mending(cfg, t, job, source, order, start, u, log)
              && TimingOf(t, job).nackCount == TimingOf(s, job).nackCount + 1 && NackBase(TimingOf(t, job)) == e.now
              && Having(t.delivered, order) == Having(s.delivered, order) && |Got(s, job)| < |Got(t, job)|
              && (NoneQueued(st.queue, job.frameNo) ==>
                    Left(t, job) == if Left(s, job) > 255 then Left(s, job) - 255 else 0)))
  {
    hide Sweep, Having, Full, NackMessage, Receiver.BucketsOk, Receiver.Pending, Receiver.Listed, Follows, Sound,
         Backed, Early, SendsNack, Job.Valid, Round, Gaps, Asked, AskedSet, NoneQueued, StillCollects, CameOut,
         Advanced, Assembly.Ok, Left, Resting, NackBase, SweptRound, NacksSince, Noted;
    TableIsSized(s);
    NackSent(cfg, s, job, source, order, start, e.now, e.delay);
    SweepKeeps(cfg, s, job, source, order, start, st, log, e.now, e.delay);
    var i, m := s.Index(job.frameNo), Sweep(cfg, s, e.now, e.delay);
    TableIsSized(m);
    var b, d := s.buckets[i], m.buckets[i];
    var more := RoundRepairs(cfg, m, job, source, order, start, Got(s, job), st, log, e.now, e.delay);
    var (t, u) := Round(cfg, m, st, NackMessage(d), source, e.now, e.delay);
    RoundIs(cfg, s, st, job.frameNo, source, e);
    NothingQueued(u, job.frameNo);
    AskedRests(cfg, b, d, e.now, e.delay(order));
    SameBefore(job, source, order, s.delivered, m.delivered, t.delivered);
    if CameFull(job, source, order, m.delivered, t.delivered, more) {
      if !cfg.autoSweep { NeverSame(job, source, order, m.delivered); }
      if NoneQueued(st.queue, job.frameNo) { FullMeansFew(s, job, d, more); }
    } else {
      TableIsSized(t);
      StillMending(cfg, s, m, t, job, source, order, start, u, log, d, more);
      if NoneQueued(st.queue, job.frameNo) { LeftAfter(s, t, job, d, more); }
    }
  }

  lemma RoundIs(cfg: Settings, s: Receiver, st: Store, no: Word16, source: Byte, e: Turn)
    requires s.TableOk() && s.buckets[s.Index(no)].active && s.buckets[s.Index(no)].asm.Ok()
    requires SendsNack(cfg, s.buckets[s.Index(no)], e.now, e.delay(s.buckets[s.Index(no)].order))
    ensures SweptRound(cfg, s, st, no, source, e)
         == Round(cfg, Sweep(cfg, s, e.now, e.delay), st, NackMessage(s.buckets[s.Index(no)]), source, e.now, e.delay)
  {
    hide Sweep, Round, NackMessage, SendsNack, Receiver.TableOk;
    TableIsSized(s);
  }

  lemma NothingQueued(st: Store, frameNo: Word16)
    requires st.queue == []
    ensures NoneQueued(st.queue, frameNo)
  {
  }

  lemma AskedRests(cfg: Settings, b: Bucket, d: Bucket, now: int, delayUs: int)
    requires b.asm.Ok() && SendsNack(cfg, b, now, delayUs) && d.timing == Noted(cfg, b, now, delayUs).timing && 0 < now
    ensures d.timing.nackCount == b.timing.nackCount + 1 && NackBase(d.timing) == now
    ensures (cfg.autoSweep ==> 0 < delayUs) ==> Resting(cfg, d.timing, now, delayUs)
  {
    hide NackMessage, NackDue, Assembly.Ok;
  }

  lemma NeverSame(job: Job, source: Byte, order: int, d: seq<Delivered>)
    ensures !CameOut(job, source, order, d, d)
  {
    hide Having, Expected;
  }

  // ----- many sweeps -----

  function AllTurns(cfg: Settings, s: Receiver, st: Store, no: Word16, source: Byte, turns: seq<Turn>):
    (r: (Receiver, Store))
    requires s.TableOk()
    ensures r.0.TableOk()
    decreases |turns|
  {
    if turns == [] then (s, st)
    else
      var (t, u) := SweptRound(cfg, s, st, no, source, turns[0]);
      AllTurns(cfg, t, u, no, source, turns[1..])
  }

  /** How many of these sweeps come when the delay since the first arrival or the last such sweep is over. */
  function Fires(base: int, order: int, turns: seq<Turn>): nat
    decreases |turns|
  {
    if turns == [] then 0
    else if base + turns[0].delay(order) <= turns[0].now then 1 + Fires(turns[0].now, order, turns[1..])
    else Fires(base, order, turns[1..])
  }

  lemma TurnsUnfold(cfg: Settings, s: Receiver, st: Store, no: Word16, source: Byte, turns: seq<Turn>, base: int,
                    order: int)
    requires s.TableOk()
    ensures turns == [] ==> AllTurns(cfg, s, st, no, source, turns) == (s, st) && Fires(base, order, turns) == 0
    ensures turns != [] ==>
      var (t, u) := SweptRound(cfg, s, st, no, source, turns[0]);
      && t.TableOk() && AllTurns(cfg, s, st, no, source, turns) == AllTurns(cfg, t, u, no, source, turns[1..])
      && Fires(base, order, turns)
           == if base + turns[0].delay(order) <= turns[0].now then 1 + Fires(turns[0].now, order, turns[1..])
              else Fires(base, order, turns[1..])
  {
    hide SweptRound, Receiver.TableOk;
  }

  predicate AllInGoodTime(cfg: Settings, start: int, order: int, turns: seq<Turn>) {
    forall i | 0 <= i < |turns| :: InGoodTime(cfg, start, order, turns[i])
  }

  lemma FirstInTime(cfg: Settings, start: int, order: int, turns: seq<Turn>)
    requires AllInGoodTime(cfg, start, order, turns) && turns != []
    ensures InGoodTime(cfg, start, order, turns[0]) && AllInGoodTime(cfg, start, order, turns[1..])
  {
    hide InGoodTime;
    forall i | 0 <= i < |turns| - 1 ensures InGoodTime(cfg, start, order, turns[1..][i]) {
      assert turns[1..][i] == turns[i + 1];
    }
  }

  /** A complete bucket is delivered by the next sweep. */
  lemma TurnDelivers(cfg: Settings, s: Receiver, job: Job, source: Byte, order: int, start: int, st: Store,
                     log: seq<Sent>, e: Turn)
    requires Mending(cfg, s, job, source, order, start, st, log) && s.TableOk() && job.Valid()
    requires Early(cfg, start, e.now) && Full(job, Got(s, job))
    ensures Repaired(cfg, s.delivered, SweptRound(cfg, s, st, job.frameNo, source, e).0, job, source, order, start,
                     TimingOf(s, job).nackCount)
  {
    var i, t := s.Index(job.frameNo), Sweep(cfg, s, e.now, e.delay);
    CompleteFrame(s.buckets[i], job, source, order);
    hide Sweep, Having, Expected, Full, Collects, NackMessage, Receiver.BucketsOk, Receiver.Pending, Receiver.Listed,
         Good, Early, StartedAt, Sound, Backed, Job.Valid, Assembly.Complete, DeliveredFrame, MessagesFor, Round;
    SweepFollows(cfg, s, job, source, order, start, Collecting(Got(s, job)), e.now, e.delay);
    SweepBucket(cfg, s, e.now, e.delay, i);
    SweepAsks(cfg, s, e.now, e.delay, i);
  }

  lemma TurnExtends(cfg: Settings, s: Receiver, st: Store, no: Word16, source: Byte, e: Turn)
    requires s.TableOk()
    ensures s.delivered <= SweptRound(cfg, s, st, no, source, e).0.delivered
  {
    hide Sweep, Receives, NackEffect, NackMessage, SendsNack, Receiver.Pending, Receiver.Listed, Drain, Assembly.Ok;
    StepExtends(cfg, s, Tick(e.now, e.delay));
    var b, t := s.buckets[s.Index(no)], Sweep(cfg, s, e.now, e.delay);
    if b.active && SendsNack(cfg, b, e.now, e.delay(b.order)) {
      var u := NackEffect(st, NackMessage(b)).0;
      DrainAnswers(u, |u.queue|);
      var answers := Drain(u, |u.queue|).1;
      assert forall i | 0 <= i < |answers| :: answers[i] in answers;
      ReceivesExtends(cfg, t, answers, source, e.now, e.delay);
    }
  }

  lemma RepairedStays(cfg: Settings, before: seq<Delivered>, s: Receiver, job: Job, source: Byte, order: int,
                      start: int, count: nat, st: Store, e: Turn)
    requires Repaired(cfg, before, s, job, source, order, start, count) && Early(cfg, start, e.now) && s.TableOk()
    ensures Repaired(cfg, before, SweptRound(cfg, s, st, job.frameNo, source, e).0, job, source, order, start, count)
  {
    hide Sweep, Having, Expected, Collects, NackMessage, SendsNack, Receiver.BucketsOk, Receiver.Pending,
         Receiver.Listed, Good, Early, StartedAt, CameOut, MessagesFor, Round, Full;
    TurnExtends(cfg, s, st, job.frameNo, source, e);
    var i, t := s.Index(job.frameNo), SweptRound(cfg, s, st, job.frameNo, source, e).0;
    CameOutStays(job, source, order, before, s.delivered, t.delivered);
    if !cfg.autoSweep {
      SweepFollows(cfg, s, job, source, order, start, Done, e.now, e.delay);
      SweepBucket(cfg, s, e.now, e.delay, i);
      SweepAsks(cfg, s, e.now, e.delay, i);
    }
  }

  lemma {:induction false} RepairedKept(cfg: Settings, before: seq<Delivered>, s: Receiver, job: Job, source: Byte,
                                        order: int, start: int, count: nat, st: Store, turns: seq<Turn>)
    requires Repaired(cfg, before, s, job, source, order, start, count) && s.TableOk()
    requires AllInGoodTime(cfg, start, order, turns)
    ensures Repaired(cfg, before, AllTurns(cfg, s, st, job.frameNo, source, turns).0, job, source, order, start, count)
    decreases |turns|
  {
    hide Repaired, SweptRound, AllInGoodTime, Early, Receiver.TableOk;
    if turns != [] {
      FirstInTime(cfg, start, order, turns);
      RepairedStays(cfg, before, s, job, source, order, start, count, st, turns[0]);
      var (t, u) := SweptRound(cfg, s, st, job.frameNo, source, turns[0]);
      RepairedKept(cfg, before, t, job, source, order, start, count, u, turns[1..]);
    }
  }

  lemma SameRepaired(cfg: Settings, a: seq<Delivered>, b: seq<Delivered>, t: Receiver, job: Job, source: Byte,
                     order: int, start: int, count: nat)
    requires Having(a, order) == Having(b, order)
    ensures Repaired(cfg, a, t, job, source, order, start, count)
      <==> Repaired(cfg, b, t, job, source, order, start, count)
  {
    hide Having, Expected, Follows, Receiver.TableOk, TimingOf;
  }

  /** RUN_TO_COMPLETION mode: coming out is all there is to show. */
  lemma OutRepaired(cfg: Settings, before: seq<Delivered>, t: Receiver, job: Job, source: Byte, order: int, start: int,
                    count: nat)
    requires cfg.autoSweep && t.TableOk() && CameOut(job, source, order, before, t.delivered)
    ensures Repaired(cfg, before, t, job, source, order, start, count)
  {
    hide CameOut, Receiver.TableOk;
  }

  lemma MendingValid(cfg: Settings, s: Receiver, job: Job, source: Byte, order: int, start: int, st: Store,
                     log: seq<Sent>)
    requires Mending(cfg, s, job, source, order, start, st, log)
    ensures s.TableOk() && job.Valid() && Got(s, job) <= Upto(job.Of() + 1) && |Got(s, job)| <= job.Of() + 1
    ensures Full(job, Got(s, job)) <==> |Got(s, job)| == job.Of() + 1
    ensures Full(job, Got(s, job)) <==> Left(s, job) == 0
    ensures cfg.autoSweep ==> !Full(job, Got(s, job))
  {
    var b := s.buckets[s.Index(job.frameNo)];
    assert job.Valid() && b.asm.of == job.Of() && b.asm.received <= Upto(job.Of() + 1);
    hide Mending, Gaps, Receiver.TableOk, Assembly.Ok, Job.Valid;
    AtMostAll(Got(s, job), job.Of() + 1);
    FullNoRanges(job, Got(s, job));
  }

  /** The bucket is complete, after so many NACKs, and nothing came out yet. */
  ghost predicate AllThere(cfg: Settings, s: Receiver, t: Receiver, job: Job, source: Byte, order: int, start: int,
                           u: Store, log: seq<Sent>, count: nat)
  {
    && t.TableOk() && Mending(cfg, t, job, source, order, start, u, log) && Full(job, Got(t, job))
    && TimingOf(t, job).nackCount == count && Having(t.delivered, order) == Having(s.delivered, order)
  }

  /** With fewer NACKs than it takes to list the missing ranges, 255 a message, just the others are left. With as many,
      the frame has come out, or it is complete and the next sweep delivers it. */
  ghost predicate Outcome(cfg: Settings, s: Receiver, t: Receiver, job: Job, source: Byte, order: int, start: int,
                          u: Store, log: seq<Sent>, asked: nat)
    requires s.TableOk() && t.TableOk()
  {
    var need := Messages(Left(s, job));
    if asked < need then
      && Mending(cfg, t, job, source, order, start, u, log) && Left(t, job) + 255 * asked == Left(s, job)
      && TimingOf(t, job).nackCount == TimingOf(s, job).nackCount + asked
      && Having(t.delivered, order) == Having(s.delivered, order)
    else
      Repaired(cfg, s.delivered, t, job, source, order, start, TimingOf(s, job).nackCount + need)
      || AllThere(cfg, s, t, job, source, order, start, u, log, TimingOf(s, job).nackCount + need)
  }

  /** What holds from the state after a sweep holds from the one before it. */
  lemma OutcomeBefore(cfg: Settings, s: Receiver, m: Receiver, t: Receiver, job: Job, source: Byte, order: int,
                      start: int, u: Store, log: seq<Sent>, more: nat, asked: nat)
    requires s.TableOk() && m.TableOk() && t.TableOk()
    requires Outcome(cfg, m, t, job, source, order, start, u, log, more)
    requires Having(m.delivered, order) == Having(s.delivered, order) && asked <= 1
    requires TimingOf(m, job).nackCount == TimingOf(s, job).nackCount + asked
    requires if asked == 0 then Left(m, job) == Left(s, job)
             else Left(s, job) > 0 && Left(m, job) == if Left(s, job) > 255 then Left(s, job) - 255 else 0
    ensures Outcome(cfg, s, t, job, source, order, start, u, log, more + asked)
  {
    hide Mending, Repaired, Having, Left, TimingOf, Receiver.TableOk, Full, Got;
    SameRepaired(cfg, s.delivered, m.delivered, t, job, source, order, start,
                 TimingOf(s, job).nackCount + Messages(Left(s, job)));
  }

  /** What many sweeps come to with nothing of the superframe queued. */
  lemma {:induction false} RangesRepaired(cfg: Settings, s: Receiver, job: Job, source: Byte, order: int, start: int,
                                          st: Store, log: seq<Sent>, turns: seq<Turn>)
    requires s.TableOk() && Mending(cfg, s, job, source, order, start, st, log) && NoneQueued(st.queue, job.frameNo)
    requires AllInGoodTime(cfg, start, order, turns)
    requires TimingOf(s, job).nackCount + Messages(Left(s, job)) <= cfg.maxNackRetries
    ensures var (t, u) := AllTurns(cfg, s, st, job.frameNo, source, turns);
      Outcome(cfg, s, t, job, source, order, start, u, log, Fires(NackBase(TimingOf(s, job)), order, turns))
    decreases |turns|
  {
    hide Mending, Full, Got, SweptRound, Receiver.TableOk, NackBase, Left, NoneQueued, InGoodTime, AllInGoodTime,
         TimingOf, Having, Repaired, CameOut, Job.Valid, Outcome, Messages, AllTurns, Fires;
    MendingValid(cfg, s, job, source, order, start, st, log);
    TurnsUnfold(cfg, s, st, job.frameNo, source, turns, NackBase(TimingOf(s, job)), order);
    OneMessage(Left(s, job));
    if turns == [] {
      NoTurns(cfg, s, job, source, order, start, st, log);
    } else {
      FirstInTime(cfg, start, order, turns);
      var (t, u) := SweptRound(cfg, s, st, job.frameNo, source, turns[0]);
      var (end, v) := AllTurns(cfg, t, u, job.frameNo, source, turns[1..]);
      if Full(job, Got(s, job)) {
        GoodIsEarly(cfg, start, order, turns[0]);
        TurnDelivers(cfg, s, job, source, order, start, st, log, turns[0]);
        RepairedKept(cfg, s.delivered, t, job, source, order, start, TimingOf(s, job).nackCount, u, turns[1..]);
        RepairedOutcome(cfg, s, end, job, source, order, start, v, log, 0,
                        Fires(NackBase(TimingOf(s, job)), order, turns));
      } else if NackBase(TimingOf(s, job)) + turns[0].delay(order) > turns[0].now {
        TurnRests(cfg, s, job, source, order, start, st, log, turns[0]);
        SameLeft(s, t, job);
        RangesRepaired(cfg, t, job, source, order, start, u, log, turns[1..]);
        OutcomeBefore(cfg, s, t, end, job, source, order, start, v, log,
                      Fires(NackBase(TimingOf(t, job)), order, turns[1..]), 0);
      } else {
        TurnAsks(cfg, s, job, source, order, start, st, log, turns[0]);
        if cfg.autoSweep && CameOut(job, source, order, s.delivered, t.delivered) && Left(s, job) <= 255 {
          OutRepaired(cfg, s.delivered, t, job, source, order, start, TimingOf(s, job).nackCount + 1);
          RepairedKept(cfg, s.delivered, t, job, source, order, start, TimingOf(s, job).nackCount + 1, u, turns[1..]);
          RepairedOutcome(cfg, s, end, job, source, order, start, v, log, 1,
                          Fires(NackBase(TimingOf(s, job)), order, turns));
        } else {
          RangesRepaired(cfg, t, job, source, order, start, u, log, turns[1..]);
          OutcomeBefore(cfg, s, t, end, job, source, order, start, v, log,
                        Fires(NackBase(TimingOf(t, job)), order, turns[1..]), 1);
        }
      }
    }
  }

  lemma NoTurns(cfg: Settings, s: Receiver, job: Job, source: Byte, order: int, start: int, st: Store, log: seq<Sent>)
    requires s.TableOk() && Mending(cfg, s, job, source, order, start, st, log)
    ensures Outcome(cfg, s, s, job, source, order, start, st, log, 0)
  {
    hide Mending, Full, Got, Receiver.TableOk, Left, TimingOf, Having, Repaired, Job.Valid, Messages;
    MendingValid(cfg, s, job, source, order, start, st, log);
    OneMessage(Left(s, job));
  }

  lemma RepairedOutcome(cfg: Settings, s: Receiver, t: Receiver, job: Job, source: Byte, order: int, start: int,
                        u: Store, log: seq<Sent>, need: nat, asked: nat)
    requires s.TableOk() && t.TableOk() && Messages(Left(s, job)) == need <= asked
    requires Repaired(cfg, s.delivered, t, job, source, order, start, TimingOf(s, job).nackCount + need)
    ensures Outcome(cfg, s, t, job, source, order, start, u, log, asked)
  {
    hide Mending, Repaired, Having, Left, TimingOf, Receiver.TableOk, Full, Got;
  }

  lemma GoodIsEarly(cfg: Settings, start: int, order: int, e: Turn)
    requires InGoodTime(cfg, start, order, e)
    ensures Early(cfg, start, e.now)
  {
  }

  lemma SameLeft(s: Receiver, t: Receiver, job: Job)
    requires s.TableOk() && t.TableOk() && Got(t, job) == Got(s, job)
    ensures Left(t, job) == Left(s, job)
  {
  }

  /** Whatever is queued besides: as many NACKs as fragments are missing always suffice. */
  lemma {:induction false} FragmentsRepaired(cfg: Settings, s: Receiver, job: Job, source: Byte, order: int, start: int,
                                             st: Store, log: seq<Sent>, turns: seq<Turn>)
    requires Mending(cfg, s, job, source, order, start, st, log) && s.TableOk()
    requires AllInGoodTime(cfg, start, order, turns)
    requires TimingOf(s, job).nackCount + job.Of() + 1 <= cfg.maxNackRetries + |Got(s, job)|
    requires job.Of() + 1 <= |Got(s, job)| + Fires(NackBase(TimingOf(s, job)), order, turns)
    ensures var (t, u) := AllTurns(cfg, s, st, job.frameNo, source, turns);
      Repaired(cfg, s.delivered, t, job, source, order, start, TimingOf(t, job).nackCount)
      || AllThere(cfg, s, t, job, source, order, start, u, log, TimingOf(t, job).nackCount)
    decreases |turns|
  {
    hide Mending, Full, Got, SweptRound, Receiver.TableOk, NackBase, Left, NoneQueued, InGoodTime, AllInGoodTime,
         TimingOf, Having, Repaired, CameOut, Job.Valid;
    MendingValid(cfg, s, job, source, order, start, st, log);
    if turns != [] {
      FirstInTime(cfg, start, order, turns);
      var (t, u) := SweptRound(cfg, s, st, job.frameNo, source, turns[0]);
      var end := AllTurns(cfg, t, u, job.frameNo, source, turns[1..]).0;
      if Full(job, Got(s, job)) {
        GoodIsEarly(cfg, start, order, turns[0]);
        TurnDelivers(cfg, s, job, source, order, start, st, log, turns[0]);
        RepairedKept(cfg, s.delivered, t, job, source, order, start, TimingOf(s, job).nackCount, u, turns[1..]);
        CountIs(cfg, s.delivered, end, job, source, order, start, TimingOf(s, job).nackCount);
      } else if NackBase(TimingOf(s, job)) + turns[0].delay(order) > turns[0].now {
        TurnRests(cfg, s, job, source, order, start, st, log, turns[0]);
        FragmentsRepaired(cfg, t, job, source, order, start, u, log, turns[1..]);
        SameRepaired(cfg, s.delivered, t.delivered, end, job, source, order, start, TimingOf(end, job).nackCount);
      } else {
        TurnAsks(cfg, s, job, source, order, start, st, log, turns[0]);
        if cfg.autoSweep && CameOut(job, source, order, s.delivered, t.delivered) {
          OutRepaired(cfg, s.delivered, t, job, source, order, start, 0);
          RepairedKept(cfg, s.delivered, t, job, source, order, start, 0, u, turns[1..]);
          CountIs(cfg, s.delivered, end, job, source, order, start, 0);
        } else {
          FragmentsRepaired(cfg, t, job, source, order, start, u, log, turns[1..]);
          SameRepaired(cfg, s.delivered, t.delivered, end, job, source, order, start, TimingOf(end, job).nackCount);
        }
      }
    }
  }

  lemma CountIs(cfg: Settings, before: seq<Delivered>, t: Receiver, job: Job, source: Byte, order: int, start: int,
                count: nat)
    requires t.TableOk() && Repaired(cfg, before, t, job, source, order, start, count)
    ensures Repaired(cfg, before, t, job, source, order, start, TimingOf(t, job).nackCount)
  {
    hide CameOut, Receiver.TableOk, Having, Expected, Follows;
  }

  // ----- from the send on -----

  /** The last sweep, whenever it comes. */
  lemma LastSweep(cfg: Settings, s: Receiver, t: Receiver, job: Job, source: Byte, order: int, start: int, u: Store,
                  log: seq<Sent>, count: nat, now: int, delay: int -> int)
    requires t.TableOk()
    requires Repaired(cfg, s.delivered, t, job, source, order, start, count)
             || AllThere(cfg, s, t, job, source, order, start, u, log, count)
    ensures var end := Sweep(cfg, t, now, delay).delivered;
      && CameOut(job, source, order, s.delivered, end)
      && (!cfg.autoSweep ==>
            && Having(end, order) == Having(s.delivered, order) + [Expected(job, source, order)]
            && TimingOf(t, job).nackCount == count)
  {
    hide Having, Expected, Sweep, Upto, Collects, Backed, Sound, Good, Receiver.BucketsOk, Receiver.Pending,
         Receiver.Listed, StartedAt;
    StepExtends(cfg, t, Tick(now, delay));
    if Repaired(cfg, s.delivered, t, job, source, order, start, count) {
      CameOutStays(job, source, order, s.delivered, t.delivered, Sweep(cfg, t, now, delay).delivered);
      if !cfg.autoSweep { SweepStep(cfg, t, job, source, order, Done, now, delay); }
    } else {
      SweepStep(cfg, t, job, source, order, Collecting(Got(t, job)), now, delay);
    }
  }

  /** A send with room, and any loss of its packets once one fragment has come through. Before the deadlines the
      receiver sweeps as often as it will, each NACK that this sends for the superframe is answered in full, and
      as many ask as it takes to list the missing ranges, within the configured retries. Then the frame comes out
      complete and as it was sent, at the latest in the sweep after. */
  lemma LossRepaired(scfg: Config, sender: State, log: seq<Sent>, op: Op, cfg: Settings, s: Receiver, source: Byte,
                     order: int, start: int, turns: seq<Turn>, now: int, delay: int -> int)
    requires scfg.Valid() && Sound(sender.store, log) && Accepted(scfg, op) && scfg.retentionMs > 0
    requires JobSize(OpJob(scfg, sender, op)) <= scfg.maxBytes && NoneQueued(sender.store.queue, sender.frameNo)
    requires forall key <- sender.store.buffer :: sender.store.buffer[key].frameNo != sender.frameNo
    requires var job := OpJob(scfg, sender, op);
      && s.TableOk() && Follows(cfg, s, job, source, order, start, Collecting(Got(s, job)))
      && !(cfg.autoSweep && Full(job, Got(s, job))) && AllInGoodTime(cfg, start, order, turns)
      && Messages(Left(s, job)) <= Fires(NackBase(TimingOf(s, job)), order, turns)
      && TimingOf(s, job).nackCount + Messages(Left(s, job)) <= cfg.maxNackRetries
    ensures var job := OpJob(scfg, sender, op);
      var t := AllTurns(cfg, s, Apply(scfg, sender, op).store, job.frameNo, source, turns).0;
      var end := Sweep(cfg, t, now, delay).delivered;
      && CameOut(job, source, order, s.delivered, end)
      && (!cfg.autoSweep ==>
            && Having(end, order) == Having(s.delivered, order) + [Expected(job, source, order)]
            && TimingOf(t, job).nackCount == TimingOf(s, job).nackCount + Messages(Left(s, job)) <= cfg.maxNackRetries)
  {
    hide Apply, Accepted, AllTurns, JobSize, Having, Expected, Sweep, Follows, Receiver.TableOk, Backed, AllInGoodTime,
         Sound, Agree, Got, NoneQueued, Full, Left, NackBase, TimingOf, Repaired, AllThere, CameOut, Fires, Messages;
    var job, st := OpJob(scfg, sender, op), Apply(scfg, sender, op).store;
    assert job.frameNo == sender.frameNo && job.Valid();
    hide OpJob, Job.Valid;
    SoundAgrees(sender.store, log);
    TableIsSized(s);
    SendBacks(scfg, sender, log, op, s.buckets[s.Index(job.frameNo)]);
    var more := ApplySound(scfg, sender, log, op);
    SendQueuesNothing(scfg, sender, op);
    FewerQueued(sender.store.queue, st.queue, job.frameNo);
    assert Mending(cfg, s, job, source, order, start, st, more);
    hide Mending;
    RangesRepaired(cfg, s, job, source, order, start, st, more, turns);
    var (t, u) := AllTurns(cfg, s, st, job.frameNo, source, turns);
    LastSweep(cfg, s, t, job, source, order, start, u, more, TimingOf(s, job).nackCount + Messages(Left(s, job)), now,
              delay);
  }

  lemma FewerQueued(a: seq<Ticket>, b: seq<Ticket>, frameNo: Word16)
    requires NoneQueued(a, frameNo) && forall t <- b :: t in a
    ensures NoneQueued(b, frameNo)
  {
    forall i | 0 <= i < |b| ensures b[i].key.frameNo != frameNo { assert b[i] in a; }
  }
}
