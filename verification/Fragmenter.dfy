/** How a payload is cut into Type1, Type3 and Type2 frames (efp.h, Sender), as a function
    of the payload and the configuration, and what every cut satisfies. */
module Fragmenter {
  import opened Wire

  const MAX_SUPERFRAME_SIZE: nat := 104857600
  const MAX_FRAGMENTS: nat := 8192

  datatype Mode = Single | Half | Quarter | Eighth {
    function BundleSize(): nat {
      match this case Single => 1 case Half => 2 case Quarter => 4 case Eighth => 8
    }
  }

  datatype Config = Config(mtu: Word16, mode: Mode, retentionMs: Word32, maxBytes: nat) {
    // The constructor raises any smaller MTU to 256.
    predicate Valid() { mtu >= 256 }

    function Type1FrameSize(): nat
      requires Valid()
    {
      match mode
      case Single => mtu
      case Half => (mtu - 2) / 2
      case Quarter => (mtu - 2) / 4
      case Eighth => (mtu - 2) / 8
    }

    function Type1Size(): (f: nat)
      requires Valid()
      ensures 0 < f < 0x1_0000
      ensures if mode.Single? then f == Type2Limit() + 19 else f <= Type2Limit()
    {
      Type1FrameSize() - 8
    }

    function Type2Limit(): nat
      requires Valid()
    {
      mtu - 27
    }
  }

  /** Type1 count, Type3 size (0: no Type3) and Type2 size. */
  datatype Cut = Cut(type1s: nat, type3: nat, type2: nat) {
    function Total(): nat { type1s + (if type3 > 0 then 1 else 0) + 1 }
  }

  /** The last one to `f` bytes go to the Type2 frame as far as it holds them and to a Type3
      frame beyond that; everything before is full Type1 frames. */
  function CutOf(size: nat, f: nat, limit: nat): Cut
    requires 0 < size && 0 < f
  {
    TailExact(size, f);
    var tail := Tail(size, f);
    var type2 := if tail <= limit then tail else limit;
    Cut((size - tail) / f, tail - type2, type2)
  }

  /** The offset of slot `k` in slots of `f` bytes. */
  function Slot(f: nat, k: nat): nat { if k == 0 then 0 else Slot(f, k - 1) + f }

  lemma {:induction false} SlotIsProduct(f: nat, k: nat)
    ensures Slot(f, k) == f * k
  {
    if k > 0 {
      SlotIsProduct(f, k - 1);
      assert f * k == f * (k - 1) + f;
    }
  }

  lemma {:induction false} SlotMono(f: nat, a: nat, b: nat)
    requires a <= b
    ensures Slot(f, a) <= Slot(f, b)
    ensures a < b ==> Slot(f, a) + f <= Slot(f, b)
    decreases b - a
  {
    if a < b {
      SlotMono(f, a, b - 1);
    }
  }

  /** Sizes add up, Type2 is never empty and fits its frame and one slot, and Type3 exists only
      when a full Type2 leaves a rest. */
  lemma CutPartition(size: nat, f: nat, limit: nat)
    requires 0 < size && 0 < f && 0 < limit
    ensures var c := CutOf(size, f, limit);
      && size == Slot(f, c.type1s) + c.type3 + c.type2
      && 0 < c.type2 <= limit && c.type2 + c.type3 <= f
      && (c.type3 > 0 ==> c.type2 == limit)
  {
    TailExact(size, f);
    SlotIsProduct(f, CutOf(size, f, limit).type1s);
  }

  function Tail(size: nat, f: nat): (t: nat)
    requires 0 < size && 0 < f
    ensures 0 < t <= f
  {
    if size % f == 0 then f else size % f
  }

  lemma TailExact(size: nat, f: nat)
    requires 0 < size && 0 < f
    ensures Tail(size, f) <= size && f * ((size - Tail(size, f)) / f) == size - Tail(size, f)
  {
    var q := size / f;
    DivMod(size, f);
    if size % f == 0 {
      var x := f * (q - 1);
      assert x == f * q - f;
      if q == 0 { assert false; }
      DivExact(f, q - 1);
    } else {
      DivExact(f, q);
    }
  }

  lemma DivMod(x: nat, f: nat)
    requires 0 < f
    ensures x == f * (x / f) + x % f && 0 <= x % f < f
  {
  }

  lemma DivExact(f: nat, q: nat)
    requires 0 < f
    ensures f * q / f == q
  {
    var x := f * q;
    var d := x / f;
    DivMod(x, f);
    SlotIsProduct(f, q); SlotIsProduct(f, d);
    if q < d {
      SlotMono(f, q, d);
    } else {
      SlotMono(f, d, q);
    }
  }

  lemma DivSlot(size: nat, f: nat)
    requires 0 < f
    ensures size == Slot(f, size / f) + size % f && 0 <= size % f < f
    ensures 0 < size / f ==> Slot(f, size / f) == Slot(f, size / f - 1) + f
    ensures f <= size ==> 0 < size / f
  {
    DivMod(size, f);
    SlotIsProduct(f, size / f);
  }

  /** The cut is the only one with these properties: nothing else can be sent. */
  lemma CutUnique(size: nat, f: nat, limit: nat, c: Cut)
    requires 0 < size && 0 < f && 0 < limit
    requires size == Slot(f, c.type1s) + c.type3 + c.type2
    requires 0 < c.type2 <= limit && c.type2 + c.type3 <= f && (c.type3 > 0 ==> c.type2 == limit)
    ensures c == CutOf(size, f, limit)
  {
    var d := CutOf(size, f, limit);
    CutPartition(size, f, limit);
    if c.type1s < d.type1s {
      SlotMono(f, c.type1s, d.type1s);
    } else if d.type1s < c.type1s {
      SlotMono(f, d.type1s, c.type1s);
    }
  }

  /** A payload beyond the Type2 limit takes at least two fragments. */
  lemma CutSeveral(size: nat, f: nat, limit: nat)
    requires 0 < limit < size && 0 < f
    ensures CutOf(size, f, limit).Total() > 1
  {
    CutPartition(size, f, limit);
  }

  /** Everything that determines the fragments of one superframe. */
  datatype Job = Job(data: seq<Byte>, f: Word16, cut: Cut, frameNo: Word16, stream: Byte, flags: Flags,
                     payloadType: Byte, pts: Word64, dtsPtsDiff: Word32, code: Word32)
  {
    function Of(): nat { cut.Total() - 1 }

    predicate Valid() {
      && |data| == Slot(f, cut.type1s) + cut.type3 + cut.type2
      && 0 < cut.type2 < 0x1_0000
      && Of() < MAX_FRAGMENTS
      && (Of() > 0 ==> 0 < f && cut.type2 + cut.type3 <= f)
    }

    /** Where fragment `k` starts in the payload; for `Of() + 1`, where the payload ends. */
    function Start(k: nat): (s: nat)
      requires Valid() && k <= Of() + 1
      ensures s <= |data|
    {
      if k <= cut.type1s then
        SlotMono(f, k, cut.type1s);
        Slot(f, k)
      else if k <= Of() then Slot(f, cut.type1s) + cut.type3
      else |data|
    }

    function Size(k: nat): nat
      requires k <= Of()
    {
      if k < cut.type1s then f else if k < Of() then cut.type3 else cut.type2
    }

    lemma StartFits(k: nat)
      requires Valid() && k <= Of()
      ensures Start(k) + Size(k) == Start(k + 1)
    {
    }

    function Payload(k: nat): (p: seq<Byte>)
      requires Valid() && k <= Of()
      ensures |p| == Size(k)
    {
      StartFits(k);
      data[Start(k)..Start(k) + Size(k)]
    }

    function Fragment(k: nat): Packet
      requires Valid() && k <= Of()
    {
      if k < cut.type1s then Type1(flags, stream, frameNo, k, Of(), Payload(k))
      else if k < Of() then Type3(flags, stream, frameNo, f, Of(), Payload(k))
      else Type2(flags, stream, payloadType, cut.type2, frameNo, Of(), f, pts, dtsPtsDiff, code, Payload(k))
    }

    /** Payloads of fragments 0..k-1 one after the other. */
    function Joined(k: nat): seq<Byte>
      requires Valid() && k <= Of() + 1
    {
      if k == 0 then [] else Joined(k - 1) + Payload(k - 1)
    }

    /** Nothing is lost, repeated or reordered: the payloads in fragment order are the data. */
    lemma {:induction false} JoinedIsData(k: nat)
      requires Valid() && k <= Of() + 1
      ensures Joined(k) == data[..Start(k)]
    {
      if k > 0 {
        JoinedIsData(k - 1);
        StartFits(k - 1);
        SliceJoin(data, Start(k - 1), Start(k));
      }
    }
  }

  lemma SliceJoin(s: seq<Byte>, a: nat, b: nat)
    requires a <= b <= |s|
    ensures s[..a] + s[a..b] == s[..b]
  {
  }

  /** The fragment number a frame occupies at the receiver. */
  function FragmentNoOf(p: Packet): int {
    match p
    case Type1(_, _, _, k, _, _) => k
    case Type2(_, _, _, _, _, of, _, _, _, _, _) => of
    case Type3(_, _, _, _, of, _) => of - 1
  }

  /** Fragment numbers 0..Of each occur once, at their own place. */
  lemma FragmentNumbers(job: Job, k: nat)
    requires job.Valid() && k <= job.Of()
    ensures FragmentNoOf(job.Fragment(k)) == k && job.Fragment(k).ofNo == job.Of()
    ensures job.Fragment(k).Type2? <==> k == job.Of()
    ensures job.Fragment(k).Type3? <==> k == job.Of() - 1 && job.cut.type3 > 0
  {
  }

  // ----- what the sender puts in the job -----

  /** PTS - DTS when it exists and fits, else the marker for "no DTS". */
  function DtsPtsDiff(pts: Word64, dts: Word64): Word32 {
    if dts != UINT64_MAX && pts != UINT64_MAX && pts >= dts && pts - dts <= UINT32_MAX - 1
    then pts - dts else UINT32_MAX
  }

  /** A payload no larger than the Type2 limit travels in one Type2 frame with Type1 size 0. */
  function JobOf(cfg: Config, data: seq<Byte>, payloadType: Byte, pts: Word64, dts: Word64, code: Word32,
                 stream: Byte, flags: Byte, frameNo: Word16): Job
    requires cfg.Valid() && data != []
  {
    if |data| <= cfg.Type2Limit() then
      Job(data, 0, Cut(0, 0, |data|), frameNo, stream, GetFlags(flags), payloadType, pts, DtsPtsDiff(pts, dts), code)
    else
      Job(data, cfg.Type1Size(), CutOf(|data|, cfg.Type1Size(), cfg.Type2Limit()), frameNo, stream,
          GetFlags(flags), payloadType, pts, DtsPtsDiff(pts, dts), code)
  }

  predicate TooManyFragments(cfg: Config, size: nat)
    requires cfg.Valid()
  {
    size > cfg.Type2Limit() && CutOf(size, cfg.Type1Size(), cfg.Type2Limit()).Total() > MAX_FRAGMENTS
  }

  /** Every accepted payload gives a job, every frame of it fits the MTU, Type2 carries at least one
      byte, and Type3 carries 1..19 bytes and exists only without bundling. */
  lemma JobFits(cfg: Config, data: seq<Byte>, payloadType: Byte, pts: Word64, dts: Word64, code: Word32,
                stream: Byte, flags: Byte, frameNo: Word16)
    requires cfg.Valid() && data != [] && !TooManyFragments(cfg, |data|)
    ensures var job := JobOf(cfg, data, payloadType, pts, dts, code, stream, flags, frameNo);
      && job.Valid()
      && (job.cut.type3 > 0 ==> cfg.mode.Single? && job.cut.type3 <= 19)
      && (forall k | 0 <= k <= job.Of() ::
          |Encode(job.Fragment(k))| <= cfg.mtu && 0 < |job.Fragment(k).payload|)
      && (forall k | 0 <= k < job.cut.type1s :: |Encode(job.Fragment(k))| == cfg.Type1FrameSize())
  {
    var job := JobOf(cfg, data, payloadType, pts, dts, code, stream, flags, frameNo);
    CutFits(cfg, data, payloadType, pts, dts, code, stream, flags, frameNo);
    hide JobOf, Encode, Job.Valid, Job.Fragment;
    forall k | 0 <= k <= job.Of()
      ensures |Encode(job.Fragment(k))| <= cfg.mtu && 0 < |job.Fragment(k).payload|
      ensures k < job.cut.type1s ==> |Encode(job.Fragment(k))| == cfg.Type1FrameSize()
    {
      FrameFits(cfg, job, k);
    }
  }

  lemma CutFits(cfg: Config, data: seq<Byte>, payloadType: Byte, pts: Word64, dts: Word64, code: Word32,
                stream: Byte, flags: Byte, frameNo: Word16)
    requires cfg.Valid() && data != [] && !TooManyFragments(cfg, |data|)
    ensures var job := JobOf(cfg, data, payloadType, pts, dts, code, stream, flags, frameNo);
      && job.Valid() && job.cut.type2 <= cfg.Type2Limit() && (job.Of() > 0 ==> job.f == cfg.Type1Size())
      && (job.cut.type3 > 0 ==> cfg.mode.Single? && job.cut.type3 <= 19)
  {
    hide CutOf, DtsPtsDiff, GetFlags;
    if |data| > cfg.Type2Limit() { CutPartition(|data|, cfg.Type1Size(), cfg.Type2Limit()); }
  }

  lemma FrameFits(cfg: Config, job: Job, k: nat)
    requires cfg.Valid() && job.Valid() && k <= job.Of() && job.cut.type2 <= cfg.Type2Limit()
    requires (job.Of() > 0 ==> job.f == cfg.Type1Size()) && (job.cut.type3 > 0 ==> job.cut.type3 <= 19)
    ensures |Encode(job.Fragment(k))| <= cfg.mtu && 0 < |job.Fragment(k).payload|
    ensures k < job.cut.type1s ==> |Encode(job.Fragment(k))| == cfg.Type1FrameSize()
  {
    hide Encode, Slot;
  }

  /** The receiver's DTS arithmetic undoes the sender's exactly when the difference was sent. */
  function DtsFrom(pts: Word64, diff: Word32): int {
    if diff == UINT32_MAX then UINT64_MAX else pts - diff
  }

  lemma DtsRoundTrip(pts: Word64, dts: Word64)
    ensures var fits := dts <= pts && pts != UINT64_MAX && pts - dts < UINT32_MAX;
      DtsFrom(pts, DtsPtsDiff(pts, dts)) == if fits then dts else UINT64_MAX
    ensures DtsPtsDiff(pts, dts) == UINT32_MAX || DtsPtsDiff(pts, dts) <= pts
  {
  }

  /** The receiver bounds a superframe by `f * (Of + 1)`, the sender by the payload size. */
  predicate WithinReceiverLimit(job: Job) { Slot(job.f, job.Of() + 1) <= MAX_SUPERFRAME_SIZE }

  /** Up to MTU 12808 the fragment cap alone keeps every accepted job within the receiver's limit. */
  lemma SmallMtuWithinLimit(cfg: Config, job: Job)
    requires cfg.Valid() && cfg.mtu <= 12808
    requires job.Valid() && (job.f == 0 || job.f == cfg.Type1Size())
    ensures WithinReceiverLimit(job)
  {
    SlotMono(job.f, job.Of() + 1, MAX_FRAGMENTS);
    SlotIsProduct(job.f, MAX_FRAGMENTS);
    assert job.f * 8192 <= 12800 * 8192;
  }
}
