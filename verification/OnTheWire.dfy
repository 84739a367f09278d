/** What one send puts on the wire, read the way a receiver divides it: each fragment of the job is there,
    alone or as a member of a bundle, and so is every retransmit of the bundling loop. */
module OnTheWire {
  import opened Wire
  import opened Fragmenter
  import opened NackRanges
  import opened Results
  import opened Retention
  import opened SenderSpec
  import opened Retransmits

  /** Dividing the bundle into its announced number of equal parts gives these bytes as the j-th. */
  predicate MemberAt(bundle: seq<Byte>, m: seq<Byte>, j: nat) {
    && |bundle| >= 2 && GetFrameType(bundle[0]) == 4 && m != [] && j < bundle[1] as nat
    && |bundle| - 2 == |m| * (bundle[1] as nat)
    && 2 + Slot(|m|, j + 1) <= |bundle| && bundle[2 + Slot(|m|, j)..2 + Slot(|m|, j + 1)] == m
  }

  predicate Member(bundle: seq<Byte>, m: seq<Byte>) { exists j: nat | j < 0x100 :: MemberAt(bundle, m, j) }

  /** The packet is these bytes, or a bundle with them in it. */
  predicate Brings(bytes: seq<Byte>, m: seq<Byte>) { bytes == m || Member(bytes, m) }

  /** One of the packets brings these bytes on this stream. */
  predicate Occurs(sent: seq<Emission>, m: seq<Byte>, stream: Byte) {
    exists i | 0 <= i < |sent| :: sent[i].stream == stream && Brings(sent[i].bytes, m)
  }

  lemma OccursIn(sent: seq<Emission>, m: seq<Byte>, stream: Byte, i: nat)
    requires i < |sent| && sent[i].stream == stream && Brings(sent[i].bytes, m)
    ensures Occurs(sent, m, stream)
  {
  }

  lemma OccursWithin(a: seq<Emission>, b: seq<Emission>, c: seq<Emission>, m: seq<Byte>, stream: Byte)
    requires Occurs(b, m, stream)
    ensures Occurs(a + b + c, m, stream)
  {
    var i :| 0 <= i < |b| && b[i].stream == stream && Brings(b[i].bytes, m);
    assert (a + b + c)[|a| + i] == b[i];
  }

  // ----- members of a wrapper -----

  lemma Skip(s: seq<Byte>, n: nat, a: nat, b: nat)
    requires a <= b && n + b <= |s|
    ensures s[n + a..n + b] == s[n..][a..b]
  {
  }

  lemma {:induction false} FlattenPart(frames: seq<seq<Byte>>, size: nat, j: nat)
    requires j < |frames| && forall i | 0 <= i < |frames| :: |frames[i]| == size
    ensures Slot(size, j) <= Slot(size, j + 1) <= |Flatten(frames)| == Slot(size, |frames|)
    ensures Flatten(frames)[Slot(size, j)..Slot(size, j + 1)] == frames[j]
  {
    SlotMono(size, j + 1, |frames|);
    FlattenSizes(frames, size);
    var rest := frames[1..];
    assert Slot(size, j + 1) == Slot(size, j) + size;
    if j == 0 {
      assert Slot(size, 0) == 0 && frames[0] == Flatten(frames)[..size];
    } else {
      assert forall i | 0 <= i < |rest| :: |rest[i]| == size;
      FlattenPart(rest, size, j - 1);
      assert Slot(size, j) == Slot(size, j - 1) + size;
      assert Flatten(frames) == frames[0] + Flatten(rest);
      hide Flatten, Slot;
      assert Flatten(frames)[size..] == Flatten(rest);
      Skip(Flatten(frames), size, Slot(size, j - 1), Slot(size, j));
    }
  }

  lemma FlattenSizes(frames: seq<seq<Byte>>, size: nat)
    requires forall i | 0 <= i < |frames| :: |frames[i]| == size
    ensures |Flatten(frames)| == Slot(size, |frames|)
  {
    forall f <- frames ensures |f| == size {}
    FlattenEqual(frames, size);
  }

  lemma WrapperMember(cfg: Config, job: Job, p: Pass, j: nat)
    requires cfg.Valid() && !cfg.mode.Single? && job.Valid() && job.f == cfg.Type1Size() && Fits(cfg, job, p)
    ensures Wrappable(job, p)
    ensures j < |MembersOf(job, p)| ==> Member(Wrapper(job, p).bytes, MembersOf(job, p)[j])
  {
    assert cfg.Type1FrameSize() == job.f as int + 8;
    hide Flatten, Slot, Job.Valid, Config.Type1Size, Config.Type1FrameSize, FrameList, Member, Fits;
    FitsWrappable(cfg, job, p);
    WrapperFits(cfg, job, p);
    var members := MembersOf(job, p);
    if j < |members| {
      assert forall i | 0 <= i < |members| :: members[i] in members;
      BundleMember(job.flags, members, job.f as int + 8, j);
      assert Wrapper(job, p).bytes == BundleHeader(job.flags, |members| as Byte) + Flatten(members);
    }
  }

  lemma BundleMember(flags: Byte, members: seq<seq<Byte>>, size: nat, j: nat)
    requires 0 < size && j < |members| < 0x100 && forall i | 0 <= i < |members| :: |members[i]| == size
    ensures Member(BundleHeader(flags, |members| as Byte) + Flatten(members), members[j])
  {
    FlattenPart(members, size, j);
    SlotIsProduct(size, |members|);
    hide Flatten, Slot, MakeFrameTypeByte;
    var header, body := BundleHeader(flags, |members| as Byte), Flatten(members);
    var bytes := header + body;
    assert bytes[2..] == body && bytes[0] == header[0] && bytes[1] == header[1];
    Skip(bytes, 2, Slot(size, j), Slot(size, j + 1));
    assert MemberAt(bytes, members[j], j);
  }

  lemma {:induction false} FrameListAt(job: Job, lo: nat, hi: nat, k: nat)
    requires job.Valid() && lo <= k < hi <= job.Of() + 1
    ensures FrameList(job, lo, hi)[k - lo] == Frame(job, k)
    decreases k - lo
  {
    hide Frame, Job.Valid;
    if lo < k { FrameListAt(job, lo + 1, hi, k); }
  }

  // ----- the packets of one send -----

  lemma {:induction false} AloneOccurs(job: Job, lo: nat, hi: nat, k: nat)
    requires job.Valid() && lo <= k < hi <= job.Of() + 1
    ensures Occurs(Alone(job, lo, hi), Frame(job, k), job.stream)
    decreases k - lo
  {
    hide Frame, Job.Valid, Occurs;
    if lo == k {
      OccursIn(Alone(job, lo, hi), Frame(job, k), job.stream, 0);
    } else {
      AloneOccurs(job, lo + 1, hi, k);
      var first, rest := [Emission(Frame(job, lo), job.stream)], Alone(job, lo + 1, hi);
      OccursWithin(first, rest, [], Frame(job, k), job.stream);
      assert first + rest + [] == Alone(job, lo, hi);
    }
  }

  lemma {:induction false} WrappersOccur(cfg: Config, job: Job, passes: seq<Pass>, lo: nat, k: nat)
    requires cfg.Valid() && !cfg.mode.Single? && job.Valid() && job.f == cfg.Type1Size()
    requires Tiles(passes, lo, job.cut.type1s) && lo <= k < job.cut.type1s
    requires forall p <- passes :: Fits(cfg, job, p)
    ensures forall p <- passes :: Wrappable(job, p)
    ensures Occurs(Wrappers(job, passes), Frame(job, k), job.stream)
    decreases |passes|
  {
    forall p <- passes ensures Wrappable(job, p) { FitsWrappable(cfg, job, p); }
    var p, rest := passes[0], passes[1..];
    hide Frame, Wrapper, Job.Valid, Occurs, Fits, Config.Type1Size;
    var w := Wrapper(job, p);
    assert Wrappers(job, passes) == p.direct + [w] + Wrappers(job, rest);
    if k < p.hi {
      PassBrings(cfg, job, p, k);
      OccursIn([w], Frame(job, k), job.stream, 0);
      OccursWithin(p.direct, [w], Wrappers(job, rest), Frame(job, k), job.stream);
    } else {
      WrappersOccur(cfg, job, rest, p.hi, k);
      OccursWithin(p.direct + [w], Wrappers(job, rest), [], Frame(job, k), job.stream);
      assert p.direct + [w] + Wrappers(job, rest) + [] == Wrappers(job, passes);
    }
  }

  lemma FrameMember(job: Job, p: Pass, k: nat)
    requires job.Valid() && p.lo <= k < p.hi <= job.Of() + 1
    ensures |MembersOf(job, p)| == |p.retransmit| + p.hi - p.lo
    ensures MembersOf(job, p)[|p.retransmit| + k - p.lo] == Frame(job, k)
  {
    hide Frame, FrameList, Job.Valid;
    FrameListAt(job, p.lo, p.hi, k);
    Behind(p.retransmit, FrameList(job, p.lo, p.hi), k - p.lo);
  }

  lemma Behind(a: seq<seq<Byte>>, b: seq<seq<Byte>>, j: nat)
    requires j < |b|
    ensures (a + b)[|a| + j] == b[j]
  {
  }

  lemma PassBrings(cfg: Config, job: Job, p: Pass, k: nat)
    requires cfg.Valid() && !cfg.mode.Single? && job.Valid() && job.f == cfg.Type1Size() && Fits(cfg, job, p)
    requires p.lo <= k < p.hi
    ensures Wrappable(job, p) && Wrapper(job, p).stream == job.stream && Brings(Wrapper(job, p).bytes, Frame(job, k))
  {
    FitsWrappable(cfg, job, p);
    assert Wrapper(job, p).stream == job.stream;
    hide Frame, FrameList, Member, Job.Valid, Config.Type1Size, Fits, Wrapper, MembersOf, Wrappable;
    WrapperMember(cfg, job, p, |p.retransmit| + k - p.lo);
    FrameMember(job, p, k);
  }

  /** Whatever waits for retransmission, every fragment of the job leaves in one of the packets of its send. */
  lemma JobOccurs(cfg: Config, st: Store, job: Job, now: int, k: nat)
    requires cfg.Valid() && job.Valid() && k <= job.Of() && (job.Of() > 0 ==> job.f == cfg.Type1Size())
    ensures Occurs(SendJob(cfg, st, job, now).1, Frame(job, k), job.stream)
  {
    hide RetainFrames, Alone, Wrappers, Occurs, Frame;
    if cfg.mode.Single? || job.Of() == 0 {
      AloneOccurs(job, 0, job.Of() + 1, k);
    } else {
      PassesWrappable(cfg, st, job, now);
      var passes := Passes(cfg, st, job, 0, now).1;
      var wrappers, alone := Wrappers(job, passes), Alone(job, job.cut.type1s, job.Of() + 1);
      assert SendJob(cfg, st, job, now).1 == wrappers + alone;
      if k < job.cut.type1s {
        PassesTile(cfg, st, job, 0, now);
        WrappersOccur(cfg, job, passes, 0, k);
        OccursWithin([], wrappers, alone, Frame(job, k), job.stream);
        assert [] + wrappers + alone == wrappers + alone;
      } else {
        AloneOccurs(job, job.cut.type1s, job.Of() + 1, k);
        OccursWithin(wrappers, alone, [], Frame(job, k), job.stream);
        assert wrappers + alone + [] == wrappers + alone;
      }
    }
  }

  /** One of the packets brings these bytes. */
  predicate Leaves(sent: seq<Emission>, m: seq<Byte>) { exists i | 0 <= i < |sent| :: Brings(sent[i].bytes, m) }

  lemma LeavesAt(a: seq<Emission>, e: Emission, c: seq<Emission>, m: seq<Byte>)
    requires Brings(e.bytes, m)
    ensures Leaves(a + [e] + c, m)
  {
    assert (a + [e] + c)[|a|] == e;
  }

  lemma LeavesLater(a: seq<Emission>, b: seq<Emission>, m: seq<Byte>)
    requires Leaves(b, m)
    ensures Leaves(a + b, m)
  {
    var i :| 0 <= i < |b| && Brings(b[i].bytes, m);
    assert (a + b)[|a| + i] == b[i];
  }

  /** The packets of the i-th pass are among those of the loop. */
  lemma {:induction false} WrapperAt(job: Job, passes: seq<Pass>, i: nat)
    returns (before: seq<Emission>, after: seq<Emission>)
    requires job.Valid() && i < |passes| && forall p <- passes :: Wrappable(job, p)
    ensures Wrappers(job, passes) == before + (passes[i].direct + [Wrapper(job, passes[i])]) + after
  {
    hide Job.Valid, Wrappable, Wrapper;
    var rest := Wrappers(job, passes[1..]);
    if i == 0 {
      before, after := [], rest;
      assert [] + (passes[0].direct + [Wrapper(job, passes[0])]) == passes[0].direct + [Wrapper(job, passes[0])];
    } else {
      before, after := WrapperAt(job, passes[1..], i - 1);
      var own, first := passes[i].direct + [Wrapper(job, passes[i])], passes[0].direct + [Wrapper(job, passes[0])];
      assert first + (before + own + after) == (first + before) + own + after;
      before := first + before;
    }
  }

  /** And every reply of the bundling loop leaves too: in its bundle, or as a packet of its own. */
  lemma ReplyLeaves(cfg: Config, job: Job, passes: seq<Pass>, i: nat, replies: seq<Reply>, r: Reply)
    requires cfg.Valid() && !cfg.mode.Single? && job.Valid() && job.f == cfg.Type1Size()
    requires i < |passes| && Fits(cfg, job, passes[i]) && Carried(passes[i], replies, job.f as int + 8) && r in replies
    requires forall p <- passes :: Wrappable(job, p)
    ensures Leaves(Wrappers(job, passes), r.data)
  {
    var p := passes[i];
    hide Job.Valid, Config.Type1Size, Leaves, Wrapper, Wrappers, Fits, Wrappable, Carried;
    var before, after := WrapperAt(job, passes, i);
    PassLeaves(cfg, job, p, replies, r, after);
    var own := p.direct + [Wrapper(job, p)];
    Associative(before, own, after);
    LeavesLater(before, own + after, r.data);
  }

  lemma PassLeaves(cfg: Config, job: Job, p: Pass, replies: seq<Reply>, r: Reply, after: seq<Emission>)
    requires cfg.Valid() && !cfg.mode.Single? && job.Valid() && job.f == cfg.Type1Size() && Fits(cfg, job, p)
    requires Carried(p, replies, job.f as int + 8) && r in replies
    ensures Wrappable(job, p) && Leaves(p.direct + [Wrapper(job, p)] + after, r.data)
  {
    assert |replies| == 1 && r == replies[0];
    hide Job.Valid, Config.Type1Size, Leaves, Wrapper, Member, Brings;
    FitsWrappable(cfg, job, p);
    if |r.data| == job.f as int + 8 {
      RetransmitBrings(cfg, job, p, r.data);
      LeavesAt(p.direct, Wrapper(job, p), after, r.data);
    } else {
      Itself(r.data);
      LeavesAt([], p.direct[0], [Wrapper(job, p)] + after, r.data);
      assert [] + [p.direct[0]] + ([Wrapper(job, p)] + after) == p.direct + [Wrapper(job, p)] + after;
    }
  }

  lemma Itself(m: seq<Byte>)
    ensures Brings(m, m)
  {
  }

  lemma RetransmitBrings(cfg: Config, job: Job, p: Pass, data: seq<Byte>)
    requires cfg.Valid() && !cfg.mode.Single? && job.Valid() && job.f == cfg.Type1Size() && Fits(cfg, job, p)
    requires p.retransmit == [data]
    ensures Wrappable(job, p) && Brings(Wrapper(job, p).bytes, data)
  {
    hide FrameList, Member, Job.Valid, Config.Type1Size, Fits, Wrapper;
    FitsWrappable(cfg, job, p);
    WrapperMember(cfg, job, p, 0);
    assert MembersOf(job, p)[0] == data;
  }
}
