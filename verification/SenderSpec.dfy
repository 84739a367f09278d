/** What one call of `send` puts on the wire and into the retention store (efp.h, Sender), as functions.
    Sender.dfy holds the class whose methods are proved to compute these functions. */
module SenderSpec {
  import opened Wire
  import opened Fragmenter
  import opened NackRanges
  import opened Results
  import opened Retention

  /** One invocation of the send callback. */
  datatype Emission = Emission(bytes: seq<Byte>, stream: Byte)

  datatype State = State(frameNo: Word16, store: Store, sent: seq<Emission>)

  function Emissions(answers: seq<Answer>): seq<Emission>
    requires forall a <- answers :: a.Retransmit?
  {
    if answers == [] then [] else [Emission(answers[0].data, answers[0].stream)] + Emissions(answers[1..])
  }

  function LimitsOf(cfg: Config): Limits { Limits(cfg.retentionMs, cfg.maxBytes) }

  // ----- frames of one job -----

  function Frame(job: Job, k: nat): seq<Byte>
    requires job.Valid() && k <= job.Of()
  {
    Encode(job.Fragment(k))
  }

  function Header1(job: Job, k: Word16): seq<Byte>
    requires job.Of() < MAX_FRAGMENTS
  {
    Header(Type1(job.flags, job.stream, job.frameNo, k, job.Of(), []))
  }

  function Header2(job: Job): seq<Byte>
    requires job.Of() < MAX_FRAGMENTS && job.cut.type2 < 0x1_0000
  {
    Header(Type2(job.flags, job.stream, job.payloadType, job.cut.type2, job.frameNo, job.Of(), job.f,
                 job.pts, job.dtsPtsDiff, job.code, []))
  }

  function Header3(job: Job): seq<Byte>
    requires job.Of() < MAX_FRAGMENTS
  {
    Header(Type3(job.flags, job.stream, job.frameNo, job.f, job.Of(), []))
  }

  /** A frame is its header and the payload slice the sender copies behind it. */
  lemma FrameParts(job: Job, k: nat)
    requires job.Valid() && k <= job.Of()
    ensures job.Start(k) + job.Size(k) == job.Start(k + 1) <= |job.data|
    ensures Frame(job, k) == (if k < job.cut.type1s then Header1(job, k) else if k < job.Of() then Header3(job)
                              else Header2(job))
                             + job.data[job.Start(k)..job.Start(k + 1)]
  {
    job.StartFits(k);
    EncodeIs(job.Fragment(k));
  }

  lemma FewFragments(job: Job)
    requires job.Valid()
    ensures job.Of() < MAX_FRAGMENTS
  {
  }

  /** Fragments lo..hi-1 are retained one after the other. */
  function RetainFrames(lim: Limits, st: Store, job: Job, lo: nat, hi: nat, now: int): Store
    requires job.Valid() && lo <= hi <= job.Of() + 1
    decreases hi - lo
  {
    if lo == hi then st
    else RetainFrames(lim, Retain(lim, st, job.frameNo, lo, job.stream, Frame(job, lo), now), job, lo + 1, hi, now)
  }

  /** Fragments lo..hi-1 leave as packets of their own. */
  function Alone(job: Job, lo: nat, hi: nat): (e: seq<Emission>)
    requires job.Valid() && lo <= hi <= job.Of() + 1
    decreases hi - lo
  {
    if lo == hi then [] else [Emission(Frame(job, lo), job.stream)] + Alone(job, lo + 1, hi)
  }

  /** Type3, if there is one, and Type2 are the fragments behind the Type1s. */
  lemma RestIs(lim: Limits, st: Store, job: Job, now: int)
    requires job.Valid()
    ensures var of := job.Of();
      var mid := if job.cut.type3 > 0 then Retain(lim, st, job.frameNo, of - 1, job.stream, Frame(job, of - 1), now)
        else st;
      && RetainFrames(lim, st, job, job.cut.type1s, of + 1, now)
           == Retain(lim, mid, job.frameNo, of, job.stream, Frame(job, of), now)
      && Alone(job, job.cut.type1s, of + 1)
           == (if job.cut.type3 > 0 then [Emission(Frame(job, of - 1), job.stream)] else [])
               + [Emission(Frame(job, of), job.stream)]
  {
    hide Retain, Frame;
    var of := job.Of();
    assert Alone(job, of, of + 1) == [Emission(Frame(job, of), job.stream)] + Alone(job, of + 1, of + 1);
    var mid := if job.cut.type3 > 0 then Retain(lim, st, job.frameNo, of - 1, job.stream, Frame(job, of - 1), now)
      else st;
    assert RetainFrames(lim, mid, job, of, of + 1, now)
        == RetainFrames(lim, Retain(lim, mid, job.frameNo, of, job.stream, Frame(job, of), now), job, of + 1, of + 1,
                        now);
  }

  function FrameList(job: Job, lo: nat, hi: nat): (f: seq<seq<Byte>>)
    requires job.Valid() && lo <= hi <= job.Of() + 1
    ensures |f| == hi - lo
    decreases hi - lo
  {
    if lo == hi then [] else [Frame(job, lo)] + FrameList(job, lo + 1, hi)
  }

  lemma FramesStep(job: Job, lo: nat, hi: nat)
    requires job.Valid() && lo < hi <= job.cut.type1s
    ensures Flatten(FrameList(job, lo, hi)) == Frame(job, lo) + Flatten(FrameList(job, lo + 1, hi))
    ensures Slot(job.f + 8, hi - lo) == Slot(job.f + 8, hi - lo - 1) + job.f + 8
  {
    hide Frame;
    assert FrameList(job, lo, hi)[1..] == FrameList(job, lo + 1, hi);
  }

  lemma FramesEnd(job: Job, hi: nat)
    requires job.Valid() && hi <= job.cut.type1s
    ensures Flatten(FrameList(job, hi, hi)) == []
  {
  }

  // ----- the bundling loop -----

  /** One pass of the loop: a retransmit of another size sent directly, a retransmit put in the bundle,
      and the new fragments lo..hi-1. */
  datatype Pass = Pass(direct: seq<Emission>, retransmit: seq<seq<Byte>>, lo: nat, hi: nat)

  function Min(a: nat, b: nat): nat { if a <= b then a else b }

  /** The pass that starts at fragment `lo`, and the store after its new fragments were retained. */
  function OnePass(cfg: Config, st: Store, job: Job, lo: nat, now: int): (r: (Store, Pass))
    requires cfg.Valid() && job.Valid() && lo < job.cut.type1s
    ensures r.1.lo == lo < r.1.hi <= job.cut.type1s
  {
    var n := Min(cfg.mode.BundleSize(), job.cut.type1s - lo);
    var (u, p) :=
      if st.queue == [] || n <= 1 then (st, Pass([], [], lo, lo + n))
      else
        var (v, a) := Pop(st);
        if a.Nothing? then (v, Pass([], [], lo, lo + n))
        else if |a.data| == job.f as int + 8 then (v, Pass([], [a.data], lo, lo + n - 1))
        else (v, Pass([Emission(a.data, a.stream)], [], lo, lo + n));
    (RetainFrames(LimitsOf(cfg), u, job, lo, p.hi, now), p)
  }

  function Passes(cfg: Config, st: Store, job: Job, lo: nat, now: int): (Store, seq<Pass>)
    requires cfg.Valid() && job.Valid() && lo <= job.cut.type1s
    decreases job.cut.type1s - lo
  {
    if lo == job.cut.type1s then (st, [])
    else
      var (u, p) := OnePass(cfg, st, job, lo, now);
      var (v, rest) := Passes(cfg, u, job, p.hi, now);
      (v, [p] + rest)
  }

  /** The members of a bundle: the retransmit, if any, then the new fragments. */
  function MembersOf(job: Job, p: Pass): seq<seq<Byte>>
    requires job.Valid() && p.lo <= p.hi <= job.Of() + 1
  {
    p.retransmit + FrameList(job, p.lo, p.hi)
  }

  predicate Wrappable(job: Job, p: Pass) { p.lo <= p.hi <= job.Of() && |p.retransmit| + p.hi - p.lo < 0x100 }

  function Wrapper(job: Job, p: Pass): Emission
    requires job.Valid() && Wrappable(job, p)
  {
    Emission(BundleHeader(job.flags, (|p.retransmit| + p.hi - p.lo) as Byte) + Flatten(MembersOf(job, p)), job.stream)
  }

  function Wrappers(job: Job, passes: seq<Pass>): seq<Emission>
    requires job.Valid() && forall p <- passes :: Wrappable(job, p)
  {
    if passes == [] then [] else passes[0].direct + [Wrapper(job, passes[0])] + Wrappers(job, passes[1..])
  }

  lemma WrappersStep(before: seq<Emission>, job: Job, passes: seq<Pass>)
    requires job.Valid() && passes != [] && forall p <- passes :: Wrappable(job, p)
    ensures forall p <- passes[1..] :: Wrappable(job, p)
    ensures before + passes[0].direct + [Wrapper(job, passes[0])] + Wrappers(job, passes[1..])
      == before + Wrappers(job, passes)
  {
    hide Wrapper, Wrappable, Job.Valid;
    var d, w, rest := passes[0].direct, [Wrapper(job, passes[0])], Wrappers(job, passes[1..]);
    Associative(before, d, w);
    Associative(before, d + w, rest);
  }

  lemma WrappersEnd(job: Job)
    requires job.Valid()
    ensures Wrappers(job, []) == []
  {
  }

  lemma {:induction false} FlattenJoin(a: seq<seq<Byte>>, b: seq<seq<Byte>>)
    ensures Flatten(a + b) == Flatten(a) + Flatten(b)
  {
    if a == [] {
      assert a + b == b;
    } else {
      FlattenJoin(a[1..], b);
      assert (a + b)[1..] == a[1..] + b;
      Associative(a[0], Flatten(a[1..]), Flatten(b));
    }
  }

  lemma FlattenOne(a: seq<seq<Byte>>)
    requires |a| <= 1
    ensures Flatten(a) == if a == [] then [] else a[0]
  {
  }

  lemma RetainStep(lim: Limits, st: Store, job: Job, lo: nat, hi: nat, now: int)
    requires job.Valid() && lo < hi <= job.Of() + 1
    ensures RetainFrames(lim, st, job, lo, hi, now)
         == RetainFrames(lim, Retain(lim, st, job.frameNo, lo, job.stream, Frame(job, lo), now), job, lo + 1, hi, now)
  {
  }

  lemma RetainEnd(lim: Limits, st: Store, job: Job, hi: nat, now: int)
    requires job.Valid() && hi <= job.Of() + 1
    ensures RetainFrames(lim, st, job, hi, hi, now) == st
  {
  }

  // ----- what the loop produces -----

  /** The passes take the Type1 fragments lo, lo+1, ... in order without gap or overlap. */
  predicate Tiles(passes: seq<Pass>, lo: nat, hi: nat) {
    if passes == [] then lo == hi
    else passes[0].lo == lo && lo < passes[0].hi <= hi && Tiles(passes[1..], passes[0].hi, hi)
  }

  /** At most one retransmit, of the size of a new fragment, and no more members than the mode says. */
  predicate Fits(cfg: Config, job: Job, p: Pass) {
    && p.lo < p.hi <= job.cut.type1s
    && |p.retransmit| <= 1 && (forall r <- p.retransmit :: |r| == job.f as int + 8)
    && |p.retransmit| + p.hi - p.lo <= cfg.mode.BundleSize()
  }

  /** Whatever is waiting for retransmission: every Type1 fragment is sent once, in order. The loop ends
      because every pass takes at least one. */
  lemma {:induction false} PassesTile(cfg: Config, st: Store, job: Job, lo: nat, now: int)
    requires cfg.Valid() && job.Valid() && lo <= job.cut.type1s
    ensures Tiles(Passes(cfg, st, job, lo, now).1, lo, job.cut.type1s)
    ensures forall p <- Passes(cfg, st, job, lo, now).1 :: Fits(cfg, job, p)
    decreases job.cut.type1s - lo
  {
    hide RetainFrames, Pop, Job.Valid;
    if lo < job.cut.type1s {
      var (u, p) := OnePass(cfg, st, job, lo, now);
      assert Fits(cfg, job, p);
      hide OnePass, Fits;
      PassesTile(cfg, u, job, p.hi, now);
    }
  }

  lemma PassesWrappable(cfg: Config, st: Store, job: Job, now: int)
    requires cfg.Valid() && job.Valid()
    ensures forall p <- Passes(cfg, st, job, 0, now).1 :: Wrappable(job, p)
  {
    PassesTile(cfg, st, job, 0, now);
    var passes := Passes(cfg, st, job, 0, now).1;
    hide Passes, Tiles, Job.Valid, Fits, Wrappable;
    forall p <- passes ensures Wrappable(job, p) { FitsWrappable(cfg, job, p); }
  }

  lemma FitsWrappable(cfg: Config, job: Job, p: Pass)
    requires Fits(cfg, job, p)
    ensures Wrappable(job, p) && p.lo < p.hi <= job.cut.type1s <= job.Of()
  {
  }

  function Bundled(cfg: Config, st: Store, job: Job, now: int): (Store, seq<Emission>)
    requires cfg.Valid() && job.Valid()
  {
    PassesWrappable(cfg, st, job, now);
    var (u, passes) := Passes(cfg, st, job, 0, now);
    (u, Wrappers(job, passes))
  }

  // ----- send -----

  /** All fragments of an accepted job: one packet each, or bundles of Type1 and then the rest alone. */
  function SendJob(cfg: Config, st: Store, job: Job, now: int): (Store, seq<Emission>)
    requires cfg.Valid() && job.Valid()
  {
    var lim := LimitsOf(cfg);
    if cfg.mode.Single? || job.Of() == 0 then
      (RetainFrames(lim, st, job, 0, job.Of() + 1, now), Alone(job, 0, job.Of() + 1))
    else
      var (u, wrappers) := Bundled(cfg, st, job, now);
      (RetainFrames(lim, u, job, job.cut.type1s, job.Of() + 1, now),
       wrappers + Alone(job, job.cut.type1s, job.Of() + 1))
  }

  function Send(cfg: Config, s: State, data: seq<Byte>, payloadType: Byte, pts: Word64, dts: Word64, code: Word32,
                stream: Byte, flags: Byte, now: int): (State, Result)
    requires cfg.Valid()
  {
    if data == [] then (s, InvalidParameter)
    else if |data| > MAX_SUPERFRAME_SIZE then (s, TooLargeFrame)
    else
      var st := if cfg.retentionMs > 0 then Evict(LimitsOf(cfg), s.store, now, 0) else s.store;
      if TooManyFragments(cfg, |data|) then (s.(store := st), TooLargeFrame)
      else
        JobFits(cfg, data, payloadType, pts, dts, code, stream, flags, s.frameNo);
        var job := JobOf(cfg, data, payloadType, pts, dts, code, stream, flags, s.frameNo);
        var (u, more) := SendJob(cfg, st, job, now);
        (State((s.frameNo + 1) % 0x1_0000, u, s.sent + more), Ok)
  }

  // ----- sizes on the wire -----

  lemma {:induction false} FlattenEqual(frames: seq<seq<Byte>>, size: nat)
    requires forall f <- frames :: |f| == size
    ensures |Flatten(frames)| == Slot(size, |frames|)
  {
    if frames != [] {
      assert frames[0] in frames;
      FlattenEqual(frames[1..], size);
    }
  }

  lemma Type1FrameSize(job: Job, k: nat)
    requires job.Valid() && k < job.cut.type1s
    ensures |Frame(job, k)| == job.f as int + 8
  {
    DecodeEncode(job.Fragment(k));
  }

  lemma {:induction false} FramesEqual(job: Job, lo: nat, hi: nat)
    requires job.Valid() && lo <= hi <= job.cut.type1s
    ensures forall f <- FrameList(job, lo, hi) :: |f| == job.f as int + 8
    decreases hi - lo
  {
    hide Frame, Job.Valid;
    if lo < hi {
      Type1FrameSize(job, lo);
      FramesEqual(job, lo + 1, hi);
    }
  }

  lemma BundleRoom(cfg: Config, n: nat)
    requires cfg.Valid() && !cfg.mode.Single? && n <= cfg.mode.BundleSize()
    ensures Slot(cfg.Type1FrameSize(), n) <= cfg.mtu - 2
  {
    var size, k := cfg.Type1FrameSize(), cfg.mode.BundleSize();
    SlotMono(size, n, k);
    SlotIsProduct(size, k);
    DivMod(cfg.mtu - 2, k);
    assert size * k == k * size;
  }

  /** Every bundle holds frames of one size and fits the MTU. */
  lemma WrapperFits(cfg: Config, job: Job, p: Pass)
    requires cfg.Valid() && !cfg.mode.Single? && job.Valid() && job.f == cfg.Type1Size() && Fits(cfg, job, p)
    ensures Wrappable(job, p) && forall m <- MembersOf(job, p) :: |m| == cfg.Type1FrameSize()
    ensures |Wrapper(job, p).bytes| <= cfg.mtu
  {
    var members, size := MembersOf(job, p), cfg.Type1FrameSize();
    FramesEqual(job, p.lo, p.hi);
    BundleRoom(cfg, |members|);
    assert size == job.f as int + 8;
    hide Flatten, FrameList, Slot, Job.Valid, Config.Type1FrameSize, Config.Type1Size;
    FlattenEqual(members, size);
  }

  lemma BundleSpace(cfg: Config, job: Job, p: Pass)
    requires cfg.Valid() && !cfg.mode.Single? && job.Valid() && job.f == cfg.Type1Size() && Fits(cfg, job, p)
    ensures |p.retransmit| <= 1
    ensures 2 + |Flatten(p.retransmit)| + Slot(job.f + 8, p.hi - p.lo) <= cfg.mtu
  {
    FlattenOne(p.retransmit);
    assert p.retransmit != [] ==> p.retransmit[0] in p.retransmit;
    BundleRoom(cfg, |p.retransmit| + p.hi - p.lo);
    assert cfg.Type1FrameSize() == job.f + 8;
    hide Flatten;
  }

  /** Every frame of a job that `send` makes fits the MTU. */
  lemma FragmentsFit(cfg: Config, job: Job)
    requires cfg.Valid() && job.data != [] && !TooManyFragments(cfg, |job.data|)
    requires if |job.data| <= cfg.Type2Limit() then job.f == 0 && job.cut == Cut(0, 0, |job.data|)
             else job.f == cfg.Type1Size() && job.cut == CutOf(|job.data|, job.f, cfg.Type2Limit())
    ensures job.Valid() && forall k | 0 <= k <= job.Of() :: |Frame(job, k)| <= cfg.mtu
  {
    if |job.data| > cfg.Type2Limit() { CutPartition(|job.data|, job.f, cfg.Type2Limit()); }
    assert job.Valid();
    forall k | 0 <= k <= job.Of() ensures |Frame(job, k)| <= cfg.mtu {
      DecodeEncode(job.Fragment(k));
    }
  }

  lemma SendJobIs(cfg: Config, st: Store, job: Job, now: int)
    requires cfg.Valid() && job.Valid()
    ensures cfg.mode.Single? || job.Of() == 0 ==>
      SendJob(cfg, st, job, now)
        == (RetainFrames(LimitsOf(cfg), st, job, 0, job.Of() + 1, now), Alone(job, 0, job.Of() + 1))
    ensures !cfg.mode.Single? && job.Of() > 0 ==>
      var (u, wrappers) := Bundled(cfg, st, job, now);
      SendJob(cfg, st, job, now)
        == (RetainFrames(LimitsOf(cfg), u, job, job.cut.type1s, job.Of() + 1, now),
            wrappers + Alone(job, job.cut.type1s, job.Of() + 1))
  {
  }
}
