/** A call of `send` with room keeps what it retains: whatever is evicted on the way, the records of its own
    fragments stay the newest. */
module Keeping {
  import opened Wire
  import opened Fragmenter
  import opened NackRanges
  import opened Results
  import opened Retention
  import opened RetentionRuns
  import opened RetentionLimits
  import opened SenderSpec
  import opened SenderRuns
  import opened Retransmits

  // ----- the newest records are those of a list -----

  /** Record `i` leads to this fragment, retained at `now`. */
  predicate Keeps(st: Store, x: Sent, i: nat, now: int) {
    && i < |st.order| && st.order[i].key == x.key && st.Live(st.order[i])
    && var e := st.buffer[x.key]; e.data == x.data && e.stream == x.stream && e.timeUs == now
  }

  /** Entry `k` of the list is led to by its record among the last `n`. */
  predicate KeptAt(st: Store, xs: seq<Sent>, n: nat, k: nat, now: int)
    requires k < n <= |xs| && n <= |st.order|
  {
    Keeps(st, xs[k], |st.order| - n + k, now)
  }

  /** The last `n` records lead to entries 0..n-1. */
  ghost predicate Newest(st: Store, xs: seq<Sent>, n: nat, now: int) {
    && n <= |xs| && n <= |st.order|
    && forall k | 0 <= k < n :: KeptAt(st, xs, n, k, now)
  }

  function SizeOf(xs: seq<Sent>, n: nat): nat
    requires n <= |xs|
  {
    if n == 0 then 0 else SizeOf(xs, n - 1) + |xs[n - 1].data|
  }

  lemma {:induction false} SizeGrows(xs: seq<Sent>, a: nat, b: nat)
    requires a <= b <= |xs|
    ensures SizeOf(xs, a) <= SizeOf(xs, b)
    decreases b - a
  {
    if a < b { SizeGrows(xs, a, b - 1); }
  }

  lemma {:induction false} NewestBytes(st: Store, xs: seq<Sent>, n: nat, now: int, k: nat)
    requires Newest(st, xs, n, now) && k <= n
    ensures From(st, |st.order| - n + k) + SizeOf(xs, k) == SizeOf(xs, n)
    decreases n - k
  {
    var i := |st.order| - n + k;
    if k == n {
      assert st.order[i..] == [];
    } else {
      NewestBytes(st, xs, n, now, k + 1);
      assert KeptAt(st, xs, n, k, now);
      assert st.order[i..][1..] == st.order[i + 1..] && st.order[i..][0] == st.order[i];
    }
  }

  lemma NewestStops(lim: Limits, st: Store, xs: seq<Sent>, n: nat, now: int, required: nat)
    requires 0 < n && Newest(st, xs, n, now) && SizeOf(xs, n) + required <= lim.maxBytes
    ensures n <= |st.order| && Stops(lim, st, now, required, |st.order| - n)
  {
    NewestBytes(st, xs, n, now, 0);
    assert KeptAt(st, xs, n, 0, now);
    hide From, Newest;
  }

  lemma EvictKeepsRecord(lim: Limits, st: Store, log: seq<Sent>, x: Sent, now: int, required: nat, j: nat, p: nat)
    requires Agree(st, log) && required <= lim.maxBytes && Keeps(st, x, p, now)
    requires j <= p < |st.order| && x.key in Evict(lim, st, now, required).buffer
    requires Evict(lim, st, now, required).order == st.order[j..]
    ensures Keeps(Evict(lim, st, now, required), x, p - j, now)
  {
    hide Evict, Agree;
    EvictMakesRoom(lim, st, log, now, required, x.key);
    assert Evict(lim, st, now, required).order[p - j] == st.order[p];
  }

  /** A pass with room for the next fragment ends before it reaches them. */
  lemma EvictKeepsNewest(lim: Limits, st: Store, log: seq<Sent>, xs: seq<Sent>, n: nat, now: int, required: nat)
    requires Agree(st, log) && Newest(st, xs, n, now) && SizeOf(xs, n) + required <= lim.maxBytes
    ensures Newest(Evict(lim, st, now, required), xs, n, now)
  {
    var u := Evict(lim, st, now, required);
    hide Evict, Agree, Stops, SizeOf, Keeps;
    var j := EvictStops(lim, st, log, now, required);
    if n > 0 { NewestStops(lim, st, xs, n, now, required); }
    forall k | 0 <= k < n ensures |u.order| >= n && KeptAt(u, xs, n, k, now) {
      var p := |st.order| - n + k;
      assert KeptAt(st, xs, n, k, now);
      KeepsLive(st, xs[k], p, now);
      EvictKeepsRecord(lim, st, log, xs[k], now, required, j, p);
    }
  }

  lemma KeepsLive(st: Store, x: Sent, i: nat, now: int)
    requires Keeps(st, x, i, now)
    ensures i < |st.order| && st.Live(st.order[i]) && st.order[i].key == x.key
  {
  }

  /** The entries have the keys of fragments 0, 1, ... of one superframe. */
  predicate Numbered(xs: seq<Sent>, frameNo: Word16) {
    |xs| <= 0x1_0000 && forall k | 0 <= k < |xs| :: xs[k].key == Key(frameNo, k)
  }

  lemma PutKeepsNewest(st: Store, xs: seq<Sent>, frameNo: Word16, n: nat, now: int)
    requires Numbered(xs, frameNo) && Newest(st, xs, n, now) && n < |xs|
    ensures Newest(Put(st, frameNo, n, xs[n].stream, xs[n].data, now), xs, n + 1, now)
  {
    var u, m := Put(st, frameNo, n, xs[n].stream, xs[n].data, now), n + 1;
    forall k | 0 <= k < m ensures KeptAt(u, xs, m, k, now) {
      if k < n {
        assert KeptAt(st, xs, n, k, now);
        assert u.order[|st.order| - n + k] == st.order[|st.order| - n + k];
      } else {
        assert u.order[|st.order|] == Ticket(Key(frameNo, n), st.generation + 1);
      }
    }
  }

  /** What is held under the frame number are entries of the list. */
  ghost predicate Clean(st: Store, frameNo: Word16, xs: seq<Sent>) {
    forall key <- st.buffer :: st.buffer[key].frameNo == frameNo ==>
      st.buffer[key].fragmentNo < |xs| && st.buffer[key].data == xs[st.buffer[key].fragmentNo].data
  }

  lemma EvictClean(lim: Limits, st: Store, log: seq<Sent>, frameNo: Word16, xs: seq<Sent>, now: int, required: nat)
    requires Agree(st, log) && Clean(st, frameNo, xs) && required <= lim.maxBytes
    ensures Clean(Evict(lim, st, now, required), frameNo, xs)
  {
    var u := Evict(lim, st, now, required);
    hide Evict, Agree;
    forall key <- u.buffer | u.buffer[key].frameNo == frameNo
      ensures u.buffer[key].fragmentNo < |xs| && u.buffer[key].data == xs[u.buffer[key].fragmentNo].data
    {
      EvictMakesRoom(lim, st, log, now, required, key);
    }
  }

  /** The first `n` fragments of this call are held, and nothing else under its number. */
  ghost predicate Kept(st: Store, frameNo: Word16, xs: seq<Sent>, n: nat, now: int) {
    Numbered(xs, frameNo) && Newest(st, xs, n, now) && Clean(st, frameNo, xs)
  }

  /** The next fragment of the call is retained: with room, nothing retained before it in the call is lost. */
  lemma OneKept(lim: Limits, st: Store, log: seq<Sent>, frameNo: Word16, xs: seq<Sent>, n: nat, now: int)
    requires Agree(st, log) && Kept(st, frameNo, xs, n, now) && n < |xs|
    requires lim.retentionMs > 0 && SizeOf(xs, |xs|) <= lim.maxBytes
    ensures n <= UINT16_MAX
    ensures Kept(Retain(lim, st, frameNo, n, xs[n].stream, xs[n].data, now), frameNo, xs, n + 1, now)
  {
    SizeGrows(xs, n + 1, |xs|);
    assert SizeOf(xs, n + 1) == SizeOf(xs, n) + |xs[n].data|;
    assert xs[n].key == Key(frameNo, n);
    var required := Required(st, Key(frameNo, n), |xs[n].data|);
    hide Agree, Newest, Evict, SizeOf;
    EvictKeepsNewest(lim, st, log, xs, n, now, required);
    EvictClean(lim, st, log, frameNo, xs, now, required);
    PutKeepsNewest(Evict(lim, st, now, required), xs, frameNo, n, now);
    hide Numbered;
  }

  lemma PopKept(st: Store, frameNo: Word16, xs: seq<Sent>, n: nat, now: int)
    requires Kept(st, frameNo, xs, n, now) && st.queue != []
    ensures Kept(Pop(st).0, frameNo, xs, n, now)
  {
    var u := Pop(st).0;
    assert u.order == st.order;
    forall k | 0 <= k < n ensures KeptAt(u, xs, n, k, now) { assert KeptAt(st, xs, n, k, now); }
  }

  /** The list depends on buffer and records alone. */
  lemma KeptSame(st: Store, u: Store, frameNo: Word16, xs: seq<Sent>, n: nat, now: int)
    requires Kept(st, frameNo, xs, n, now) && u.buffer == st.buffer && u.order == st.order
    ensures Kept(u, frameNo, xs, n, now)
  {
    forall k | 0 <= k < n ensures KeptAt(u, xs, n, k, now) { assert KeptAt(st, xs, n, k, now); }
  }

  // ----- the frames of a job -----

  predicate IsFrame(xs: seq<Sent>, job: Job, k: nat)
    requires job.Valid() && k <= job.Of() && k < |xs|
  {
    xs[k] == Sent(Key(job.frameNo, k), job.stream, Frame(job, k))
  }

  /** The list is that of the job's frames. */
  ghost predicate Lists(xs: seq<Sent>, job: Job) {
    job.Valid() && |xs| == job.Of() + 1 && forall k | 0 <= k < |xs| :: IsFrame(xs, job, k)
  }

  lemma ListsLength(xs: seq<Sent>, job: Job)
    requires Lists(xs, job)
    ensures job.Valid() && |xs| == job.Of() + 1
  {
  }

  lemma ListsAt(xs: seq<Sent>, job: Job, k: nat)
    requires Lists(xs, job) && job.Valid() && k < |xs|
    ensures k <= job.Of() && xs[k].data == Frame(job, k) && xs[k].stream == job.stream
    ensures SizeOf(xs, k + 1) == SizeOf(xs, k) + |xs[k].data|
  {
    hide Frame;
    assert IsFrame(xs, job, k);
  }

  function FramesOf(job: Job): (xs: seq<Sent>)
    requires job.Valid()
  {
    seq(job.Of() + 1, k requires 0 <= k <= job.Of() => Sent(Key(job.frameNo, k), job.stream, Frame(job, k)))
  }

  lemma FramesListed(job: Job)
    requires job.Valid()
    ensures Lists(FramesOf(job), job) && Numbered(FramesOf(job), job.frameNo)
  {
    hide Frame, Job.Valid;
    FewFragments(job);
  }

  /** What the frames of a job take in the store. */
  function JobSize(job: Job): nat
    requires job.Valid()
  {
    SizeOf(FramesOf(job), job.Of() + 1)
  }

  lemma {:induction false} FramesKept(lim: Limits, st: Store, log: seq<Sent>, job: Job, xs: seq<Sent>, lo: nat,
                                      hi: nat, now: int)
    requires Agree(st, log) && Lists(xs, job) && Kept(st, job.frameNo, xs, lo, now) && lo <= hi <= |xs|
    requires lim.retentionMs > 0 && SizeOf(xs, |xs|) <= lim.maxBytes
    ensures Kept(RetainFrames(lim, st, job, lo, hi, now), job.frameNo, xs, hi, now)
    decreases hi - lo
  {
    hide Agree, Kept, Retain, Frame, Job.Valid, SizeOf, LogAfter, RetainFrames, Lists;
    ListsLength(xs, job);
    FewFragments(job);
    if lo == hi {
      RetainEnd(lim, st, job, hi, now);
    } else {
      ListsAt(xs, job, lo);
      OneKept(lim, st, log, job.frameNo, xs, lo, now);
      RetainStep(lim, st, job, lo, hi, now);
      RetainAgrees(lim, st, log, job.frameNo, lo, job.stream, Frame(job, lo), now);
      FramesKept(lim, Retain(lim, st, job.frameNo, lo, job.stream, Frame(job, lo), now),
                 LogAfter(lim, log, job.frameNo, lo, job.stream, Frame(job, lo)), job, xs, lo + 1, hi, now);
    }
  }

  lemma {:induction false} PassesKept(cfg: Config, st: Store, log: seq<Sent>, job: Job, xs: seq<Sent>, lo: nat,
                                      now: int)
    requires cfg.Valid() && Agree(st, log) && Lists(xs, job) && Kept(st, job.frameNo, xs, lo, now)
    requires lo <= job.cut.type1s
    requires cfg.retentionMs > 0 && SizeOf(xs, |xs|) <= cfg.maxBytes
    ensures Kept(Passes(cfg, st, job, lo, now).0, job.frameNo, xs, job.cut.type1s, now)
    decreases job.cut.type1s - lo
  {
    assert job.Valid() && job.cut.type1s <= job.Of();
    if lo < job.cut.type1s {
      var (u, p) := OnePass(cfg, st, job, lo, now);
      var mid, lim := AfterAsk(cfg, st, job, lo), LimitsOf(cfg);
      OnePassIs(cfg, st, job, lo, now);
      if Asks(cfg, st, job, lo) {
        PopKept(st, job.frameNo, xs, lo, now);
        PopAgrees(st, log);
      }
      hide Agree, Kept, OnePass, Pop, RetainFrames, Job.Valid, SizeOf, FramesLog, Lists;
      FramesKept(lim, mid, log, job, xs, lo, p.hi, now);
      FramesAgree(lim, mid, log, job, lo, p.hi, now);
      PassesKept(cfg, u, log + FramesLog(lim, job, lo, p.hi), job, xs, p.hi, now);
    }
  }

  /** After the call every frame of the job is held, and nothing else under its number. */
  lemma JobKept(cfg: Config, st: Store, log: seq<Sent>, job: Job, xs: seq<Sent>, now: int)
    requires cfg.Valid() && Agree(st, log) && Lists(xs, job) && Kept(st, job.frameNo, xs, 0, now)
    requires cfg.retentionMs > 0 && SizeOf(xs, |xs|) <= cfg.maxBytes
    ensures Kept(SendJob(cfg, st, job, now).0, job.frameNo, xs, |xs|, now)
  {
    assert job.cut.type1s <= job.Of();
    SendJobIs(cfg, st, job, now);
    hide Agree, Kept, SendJob, Passes, RetainFrames, Job.Valid, SizeOf, Wrappers, Alone, FramesLog;
    if cfg.mode.Single? || job.Of() == 0 {
      FramesKept(LimitsOf(cfg), st, log, job, xs, 0, |xs|, now);
    } else {
      BundledKept(cfg, st, log, job, xs, now);
    }
  }

  lemma BundledKept(cfg: Config, st: Store, log: seq<Sent>, job: Job, xs: seq<Sent>, now: int)
    requires cfg.Valid() && Agree(st, log) && Lists(xs, job) && Kept(st, job.frameNo, xs, 0, now)
    requires cfg.retentionMs > 0 && SizeOf(xs, |xs|) <= cfg.maxBytes
    ensures job.cut.type1s <= job.Of()
    ensures Kept(RetainFrames(LimitsOf(cfg), Passes(cfg, st, job, 0, now).0, job, job.cut.type1s, job.Of() + 1, now),
                 job.frameNo, xs, |xs|, now)
  {
    var lim, n := LimitsOf(cfg), job.cut.type1s;
    assert n <= job.Of();
    hide Agree, Kept, Passes, RetainFrames, Job.Valid, SizeOf, FramesLog;
    PassesKept(cfg, st, log, job, xs, 0, now);
    PassesAgree(cfg, st, log, job, 0, now);
    FramesKept(lim, Passes(cfg, st, job, 0, now).0, log + FramesLog(lim, job, 0, n), job, xs, n, job.Of() + 1, now);
  }

  lemma {:induction false} PassesAgree(cfg: Config, st: Store, log: seq<Sent>, job: Job, lo: nat, now: int)
    requires cfg.Valid() && Agree(st, log) && job.Valid() && lo <= job.cut.type1s
    ensures job.cut.type1s <= job.Of()
    ensures Agree(Passes(cfg, st, job, lo, now).0, log + FramesLog(LimitsOf(cfg), job, lo, job.cut.type1s))
    decreases job.cut.type1s - lo
  {
    assert job.cut.type1s <= job.Of();
    var lim := LimitsOf(cfg);
    if lo == job.cut.type1s {
      NoFrames(lim, st, job, lo, now, log);
    } else {
      var (u, p) := OnePass(cfg, st, job, lo, now);
      var next := log + FramesLog(lim, job, lo, p.hi);
      OnePassIs(cfg, st, job, lo, now);
      if Asks(cfg, st, job, lo) { PopAgrees(st, log); }
      hide Agree, OnePass, Pop, RetainFrames, Job.Valid, FramesLog;
      FramesAgree(lim, AfterAsk(cfg, st, job, lo), log, job, lo, p.hi, now);
      PassesAgree(cfg, u, next, job, p.hi, now);
      FramesLogJoin(lim, job, lo, p.hi, job.cut.type1s);
      Associative(log, FramesLog(lim, job, lo, p.hi), FramesLog(lim, job, p.hi, job.cut.type1s));
    }
  }
}
