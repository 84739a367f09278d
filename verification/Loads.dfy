/** What each packet of one send carries: fragments of its own job, alone or in a bundle that may have a
    retransmit in front, or a retransmit of something else. */
module Loads {
  import opened Wire
  import opened Fragmenter
  import opened NackRanges
  import opened Results
  import opened Retention
  import opened RetentionRuns
  import opened SenderSpec
  import opened Retransmits

  /** Only a retransmit of something else, or the fragments from lo up to hi behind at most one in front. */
  datatype Load = Foreign | Part(lo: nat, hi: nat, front: seq<seq<Byte>>)

  ghost predicate Carries(cfg: Config, job: Job, bytes: seq<Byte>, l: Load)
    requires cfg.Valid() && job.Valid()
  {
    l.Part? ==>
      && l.lo < l.hi <= job.Of() + 1
      && ((l.front == [] && l.hi == l.lo + 1 && bytes == Frame(job, l.lo))
          || (&& !cfg.mode.Single? && job.f == cfg.Type1Size()
              && var p := Pass([], l.front, l.lo, l.hi);
                 Fits(cfg, job, p) && Wrappable(job, p) && bytes == Wrapper(job, p).bytes))
  }

  ghost predicate AllCarry(cfg: Config, job: Job, sent: seq<Emission>, loads: seq<Load>)
    requires cfg.Valid() && job.Valid()
  {
    |sent| == |loads| && forall i | 0 <= i < |sent| :: Carries(cfg, job, sent[i].bytes, loads[i])
  }

  /** The own loads follow each other from lo to hi. */
  predicate Tile(loads: seq<Load>, lo: nat, hi: nat) {
    if loads == [] then lo == hi
    else if loads[0].Foreign? then Tile(loads[1..], lo, hi)
    else loads[0].lo == lo && lo < loads[0].hi <= hi && Tile(loads[1..], loads[0].hi, hi)
  }

  lemma {:induction false} TileCovers(loads: seq<Load>, lo: nat, hi: nat, k: nat) returns (i: nat)
    requires Tile(loads, lo, hi) && lo <= k < hi
    ensures i < |loads| && loads[i].Part? && loads[i].lo <= k < loads[i].hi
  {
    if loads[0].Part? && k < loads[0].hi { i := 0; }
    else { i := TileCovers(loads[1..], if loads[0].Part? then loads[0].hi else lo, hi, k); i := i + 1; }
  }

  lemma {:induction false} TileRange(loads: seq<Load>, lo: nat, hi: nat, i: nat)
    requires Tile(loads, lo, hi) && i < |loads| && loads[i].Part?
    ensures lo <= loads[i].lo < loads[i].hi <= hi
  {
    if i > 0 {
      TileEnd(loads[1..], if loads[0].Part? then loads[0].hi else lo, hi);
      TileRange(loads[1..], if loads[0].Part? then loads[0].hi else lo, hi, i - 1);
    } else {
      TileEnd(loads[1..], loads[0].hi, hi);
    }
  }

  lemma {:induction false} TileEnd(loads: seq<Load>, lo: nat, hi: nat)
    requires Tile(loads, lo, hi)
    ensures lo <= hi
  {
    if loads != [] { TileEnd(loads[1..], if loads[0].Part? then loads[0].hi else lo, hi); }
  }

  /** No fragment is carried twice. */
  lemma {:induction false} TileUnique(loads: seq<Load>, lo: nat, hi: nat, i: nat, j: nat, k: nat)
    requires Tile(loads, lo, hi) && i < |loads| && j < |loads| && loads[i].Part? && loads[j].Part?
    requires loads[i].lo <= k < loads[i].hi && loads[j].lo <= k < loads[j].hi
    ensures i == j
  {
    if i > 0 && j > 0 {
      TileUnique(loads[1..], if loads[0].Part? then loads[0].hi else lo, hi, i - 1, j - 1, k);
    } else if i > 0 {
      TileRange(loads[1..], loads[0].hi, hi, i - 1);
    } else if j > 0 {
      TileRange(loads[1..], loads[0].hi, hi, j - 1);
    }
  }

  lemma {:induction false} TileJoin(a: seq<Load>, b: seq<Load>, lo: nat, mid: nat, hi: nat)
    requires Tile(a, lo, mid) && Tile(b, mid, hi) && mid <= hi
    ensures Tile(a + b, lo, hi)
  {
    if a == [] {
      assert a + b == b;
    } else {
      TileJoin(a[1..], b, if a[0].Part? then a[0].hi else lo, mid, hi);
      assert (a + b)[1..] == a[1..] + b;
    }
  }

  // ----- the loads of a send -----

  function AloneLoads(lo: nat, hi: nat): (loads: seq<Load>)
    requires lo <= hi
    ensures |loads| == hi - lo
    decreases hi - lo
  {
    if lo == hi then [] else [Part(lo, lo + 1, [])] + AloneLoads(lo + 1, hi)
  }

  function ForeignLoads(n: nat): (loads: seq<Load>)
    ensures |loads| == n && forall i | 0 <= i < n :: loads[i].Foreign?
  {
    seq(n, i => Foreign)
  }

  function PassLoads(passes: seq<Pass>): seq<Load> {
    if passes == [] then []
    else
      ForeignLoads(|passes[0].direct|) + [Part(passes[0].lo, passes[0].hi, passes[0].retransmit)]
        + PassLoads(passes[1..])
  }

  /** In the order of the packets. */
  function JobLoads(cfg: Config, st: Store, job: Job, now: int): seq<Load>
    requires cfg.Valid() && job.Valid()
  {
    if cfg.mode.Single? || job.Of() == 0 then AloneLoads(0, job.Of() + 1)
    else PassLoads(Passes(cfg, st, job, 0, now).1) + AloneLoads(job.cut.type1s, job.Of() + 1)
  }

  lemma {:induction false} AloneCarry(cfg: Config, job: Job, lo: nat, hi: nat)
    requires cfg.Valid() && job.Valid() && lo <= hi <= job.Of() + 1
    ensures AllCarry(cfg, job, Alone(job, lo, hi), AloneLoads(lo, hi)) && Tile(AloneLoads(lo, hi), lo, hi)
    decreases hi - lo
  {
    hide Frame, Job.Valid;
    if lo < hi {
      AloneCarry(cfg, job, lo + 1, hi);
      assert Carries(cfg, job, Frame(job, lo), Part(lo, lo + 1, []));
      hide Carries;
      assert AloneLoads(lo, hi)[1..] == AloneLoads(lo + 1, hi);
    }
  }

  lemma PassCarries(cfg: Config, job: Job, p: Pass)
    requires cfg.Valid() && !cfg.mode.Single? && job.Valid() && job.f == cfg.Type1Size() && Fits(cfg, job, p)
    ensures Wrappable(job, p) && Carries(cfg, job, Wrapper(job, p).bytes, Part(p.lo, p.hi, p.retransmit))
  {
    FitsWrappable(cfg, job, p);
    DirectApart(cfg, job, p);
    hide Wrapper, Fits, Wrappable, Job.Valid, Config.Type1Size;
  }

  /** The bundle does not depend on what is sent before it. */
  lemma DirectApart(cfg: Config, job: Job, p: Pass)
    requires job.Valid() && Fits(cfg, job, p) && Wrappable(job, p)
    ensures var q := Pass([], p.retransmit, p.lo, p.hi);
      Fits(cfg, job, q) && Wrappable(job, q) && Wrapper(job, q) == Wrapper(job, p)
  {
    hide Flatten, FrameList, Job.Valid;
  }

  lemma {:induction false} PassesCarry(cfg: Config, job: Job, passes: seq<Pass>, lo: nat)
    requires cfg.Valid() && !cfg.mode.Single? && job.Valid() && job.f == cfg.Type1Size()
    requires Tiles(passes, lo, job.cut.type1s) && forall p <- passes :: Fits(cfg, job, p) && Wrappable(job, p)
    ensures AllCarry(cfg, job, Wrappers(job, passes), PassLoads(passes))
    ensures Tile(PassLoads(passes), lo, job.cut.type1s)
    decreases |passes|
  {
    hide Job.Valid, Config.Type1Size, Fits, Wrappable, Wrapper, Carries;
    if passes != [] {
      var p, rest := passes[0], passes[1..];
      PassesCarry(cfg, job, rest, p.hi);
      PassCarries(cfg, job, p);
      FrontCarries(cfg, job, p);
      JoinCarry(cfg, job, p.direct + [Wrapper(job, p)], ForeignLoads(|p.direct|) + [Part(p.lo, p.hi, p.retransmit)],
                Wrappers(job, rest), PassLoads(rest));
      SkipForeign(|p.direct|, [Part(p.lo, p.hi, p.retransmit)], lo, p.hi);
      TileJoin(ForeignLoads(|p.direct|) + [Part(p.lo, p.hi, p.retransmit)], PassLoads(rest), lo, p.hi, job.cut.type1s);
    }
  }

  lemma FrontCarries(cfg: Config, job: Job, p: Pass)
    requires cfg.Valid() && job.Valid() && Wrappable(job, p)
    requires Carries(cfg, job, Wrapper(job, p).bytes, Part(p.lo, p.hi, p.retransmit)) && p.lo < p.hi
    ensures AllCarry(cfg, job, p.direct + [Wrapper(job, p)], ForeignLoads(|p.direct|)
                     + [Part(p.lo, p.hi, p.retransmit)])
    ensures Tile([Part(p.lo, p.hi, p.retransmit)], p.lo, p.hi)
  {
    hide Wrapper, Job.Valid;
    var sent, loads := p.direct + [Wrapper(job, p)], ForeignLoads(|p.direct|) + [Part(p.lo, p.hi, p.retransmit)];
    forall i | 0 <= i < |sent| ensures Carries(cfg, job, sent[i].bytes, loads[i]) {
      assert i < |p.direct| ==> loads[i] == ForeignLoads(|p.direct|)[i];
    }
  }

  lemma JoinCarry(cfg: Config, job: Job, a: seq<Emission>, x: seq<Load>, b: seq<Emission>, y: seq<Load>)
    requires cfg.Valid() && job.Valid() && AllCarry(cfg, job, a, x) && AllCarry(cfg, job, b, y)
    ensures AllCarry(cfg, job, a + b, x + y)
  {
    hide Carries, Job.Valid;
  }

  lemma {:induction false} SkipForeign(n: nat, loads: seq<Load>, lo: nat, hi: nat)
    requires Tile(loads, lo, hi)
    ensures Tile(ForeignLoads(n) + loads, lo, hi)
  {
    if n == 0 {
      assert ForeignLoads(0) + loads == loads;
    } else {
      SkipForeign(n - 1, loads, lo, hi);
      assert (ForeignLoads(n) + loads)[1..] == ForeignLoads(n - 1) + loads;
      assert (ForeignLoads(n) + loads)[0] == ForeignLoads(n)[0];
    }
  }

  /** The packets of one send carry each fragment exactly once, whatever else they carry. */
  lemma SendCarries(cfg: Config, st: Store, job: Job, now: int)
    requires cfg.Valid() && job.Valid() && (job.Of() > 0 ==> job.f == cfg.Type1Size())
    ensures AllCarry(cfg, job, SendJob(cfg, st, job, now).1, JobLoads(cfg, st, job, now))
    ensures Tile(JobLoads(cfg, st, job, now), 0, job.Of() + 1)
  {
    hide Carries, RetainFrames, Alone, AloneLoads, Passes, PassLoads, Wrappers, Wrappable, Tile, Job.Valid;
    var n := job.cut.type1s;
    assert n <= job.Of();
    if cfg.mode.Single? || job.Of() == 0 {
      AloneCarry(cfg, job, 0, job.Of() + 1);
    } else {
      PassesWrappable(cfg, st, job, now);
      PassesTile(cfg, st, job, 0, now);
      var passes := Passes(cfg, st, job, 0, now).1;
      PassesCarry(cfg, job, passes, 0);
      AloneCarry(cfg, job, n, job.Of() + 1);
      JoinCarry(cfg, job, Wrappers(job, passes), PassLoads(passes), Alone(job, n, job.Of() + 1),
                AloneLoads(n, job.Of() + 1));
      TileJoin(PassLoads(passes), AloneLoads(n, job.Of() + 1), 0, n, job.Of() + 1);
    }
  }

  // ----- fronts -----

  /** Each retransmit in front of a bundle is a Type1 frame. */
  predicate FrontsType1(loads: seq<Load>) {
    forall i | 0 <= i < |loads| && loads[i].Part? && loads[i].front != [] ::
        |loads[i].front| == 1 && IsType1(loads[i].front[0])
  }

  predicate NoFronts(loads: seq<Load>) { forall i | 0 <= i < |loads| :: loads[i].Part? && loads[i].front == [] }

  lemma {:induction false} AloneNoFronts(lo: nat, hi: nat)
    requires lo <= hi
    ensures NoFronts(AloneLoads(lo, hi))
    decreases hi - lo
  {
    if lo < hi { AloneNoFronts(lo + 1, hi); }
  }

  lemma {:induction false} PassesNoFronts(cfg: Config, st: Store, job: Job, lo: nat, now: int)
    requires cfg.Valid() && job.Valid() && lo <= job.cut.type1s && st.queue == []
    ensures NoFronts(PassLoads(Passes(cfg, st, job, lo, now).1))
    decreases job.cut.type1s - lo
  {
    if lo < job.cut.type1s {
      OnePassIs(cfg, st, job, lo, now);
      assert PassReply(cfg, st, job, lo) == [];
      hide Job.Valid, RetainFrames;
      var (u, p) := OnePass(cfg, st, job, lo, now);
      FramesKeepQueue(LimitsOf(cfg), st, job, lo, p.hi, now);
      hide OnePass;
      PassesNoFronts(cfg, u, job, p.hi, now);
    }
  }

  lemma {:induction false} FramesKeepQueue(lim: Limits, st: Store, job: Job, lo: nat, hi: nat, now: int)
    requires job.Valid() && lo <= hi <= job.Of() + 1
    ensures RetainFrames(lim, st, job, lo, hi, now).queue == st.queue
    decreases hi - lo
  {
    hide Frame, Evict, Job.Valid;
    FewFragments(job);
    if lo < hi {
      EvictKeepsQueue(lim, st, now, Required(st, Key(job.frameNo, lo), |Frame(job, lo)|));
      FramesKeepQueue(lim, Retain(lim, st, job.frameNo, lo, job.stream, Frame(job, lo), now), job, lo + 1, hi, now);
    }
  }

  /** Without bundling, or with nothing queued, no packet carries a retransmit. */
  lemma PlainLoads(cfg: Config, st: Store, job: Job, now: int)
    requires cfg.Valid() && job.Valid() && (cfg.mode.Single? || st.queue == [])
    ensures NoFronts(JobLoads(cfg, st, job, now))
  {
    hide Passes, PassLoads, AloneLoads;
    assert job.cut.type1s <= job.Of();
    if cfg.mode.Single? || job.Of() == 0 {
      AloneNoFronts(0, job.Of() + 1);
    } else {
      PassesNoFronts(cfg, st, job, 0, now);
      AloneNoFronts(job.cut.type1s, job.Of() + 1);
    }
  }

  lemma {:induction false} PassFronts(passes: seq<Pass>, groups: seq<seq<Reply>>, size: nat)
    requires |passes| == |groups|
    requires forall i | 0 <= i < |passes| :: Carried(passes[i], groups[i], size) && FitsType1(groups[i], size)
    ensures FrontsType1(PassLoads(passes))
    decreases |passes|
  {
    if passes != [] {
      PassFronts(passes[1..], groups[1..], size);
      assert Carried(passes[0], groups[0], size) && FitsType1(groups[0], size);
      hide IsType1;
    }
  }

  /** If every live queued request of the size of a new frame is for a Type1 frame, so is every front. */
  lemma FrontsAreType1(cfg: Config, st: Store, log: seq<Sent>, job: Job, now: int)
    requires cfg.Valid() && job.Valid() && Agree(st, log) && OnlyType1Fits(st, job.f as int + 8)
    ensures FrontsType1(JobLoads(cfg, st, job, now))
  {
    hide Passes, PassLoads, AloneLoads, Agree, Groups, Carried, FitsType1, OnlyType1Fits, FrontsType1, NoFronts,
         Job.Valid;
    if cfg.mode.Single? || job.Of() == 0 {
      AloneNoFronts(0, job.Of() + 1);
      NoneType1(AloneLoads(0, job.Of() + 1));
    } else {
      assert job.cut.type1s <= job.Of();
      var rest := AloneLoads(job.cut.type1s, job.Of() + 1);
      BundleFronts(cfg, st, log, job, now);
      AloneNoFronts(job.cut.type1s, job.Of() + 1);
      NoneType1(rest);
      JoinFronts(PassLoads(Passes(cfg, st, job, 0, now).1), rest);
    }
  }

  lemma BundleFronts(cfg: Config, st: Store, log: seq<Sent>, job: Job, now: int)
    requires cfg.Valid() && job.Valid() && Agree(st, log) && OnlyType1Fits(st, job.f as int + 8)
    ensures FrontsType1(PassLoads(Passes(cfg, st, job, 0, now).1))
  {
    hide Passes, PassLoads, Agree, Groups, Carried, FitsType1, OnlyType1Fits, FrontsType1, Job.Valid;
    var groups: seq<seq<Reply>> := Groups(cfg, st, job, 0, now);
    GroupsCarried(cfg, st, job, 0, now);
    forall i | 0 <= i < |groups| ensures FitsType1(groups[i], job.f as int + 8) {
      GroupType1(cfg, st, log, job, now, i, job.f as int + 8);
    }
    PassFronts(Passes(cfg, st, job, 0, now).1, groups, job.f as int + 8);
  }

  lemma NoneType1(loads: seq<Load>)
    requires NoFronts(loads)
    ensures FrontsType1(loads)
  {
  }

  lemma JoinFronts(a: seq<Load>, b: seq<Load>)
    requires FrontsType1(a) && FrontsType1(b)
    ensures FrontsType1(a + b)
  {
    hide IsType1;
  }
}
