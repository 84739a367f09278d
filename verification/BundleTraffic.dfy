/** Bundles as bytes: what the receiver does with what the bundling loop of `send` puts together. */
module BundleTraffic {
  import opened Wire
  import opened Fragmenter
  import opened FrameMemory
  import opened Placement
  import opened NackRanges
  import opened Results
  import opened Retention
  import opened SenderSpec
  import opened ReceiverSpec
  import opened ReceiverRuns
  import opened EndToEnd
  import opened Bundles

  // ----- bundles on the wire -----

  function Fragments(job: Job, lo: nat, hi: nat): (ps: seq<Packet>)
    requires job.Valid() && lo <= hi <= job.Of() + 1
    ensures |ps| == hi - lo
    decreases hi - lo
  {
    if lo == hi then [] else [job.Fragment(lo)] + Fragments(job, lo + 1, hi)
  }

  lemma {:induction false} FragmentsEncoded(job: Job, lo: nat, hi: nat)
    requires job.Valid() && lo <= hi <= job.cut.type1s
    ensures Encoded(Fragments(job, lo, hi)) == FrameList(job, lo, hi)
    ensures EqualType1s(Fragments(job, lo, hi), job.f + 8)
    decreases hi - lo
  {
    hide Encode, Job.Payload;
    if lo < hi {
      FragmentsEncoded(job, lo + 1, hi);
      assert Fragments(job, lo, hi)[1..] == Fragments(job, lo + 1, hi);
    }
  }

  lemma BundleBytes(cfg: Config, job: Job, p: Pass, size: nat)
    requires cfg.Valid() && !cfg.mode.Single? && job.Valid() && job.f == cfg.Type1Size() && Fits(cfg, job, p)
    requires size == job.f + 8
    ensures Wrappable(job, p) && |Flatten(MembersOf(job, p))| == size * (|p.retransmit| + p.hi - p.lo)
  {
    WrapperFits(cfg, job, p);
    FlattenEqual(MembersOf(job, p), size);
    hide Flatten, FrameList;
    SlotIsProduct(size, |MembersOf(job, p)|);
  }

  /** A bundle of new fragments alone does what the fragments would do one by one. */
  lemma BundleHandled(cfg: Config, rcfg: Settings, s: Receiver, job: Job, p: Pass, source: Byte, now: int)
    requires cfg.Valid() && !cfg.mode.Single? && job.Valid() && job.f == cfg.Type1Size() && Fits(cfg, job, p)
    requires s.TableOk() && p.retransmit == []
    ensures Wrappable(job, p)
    ensures Dispatch(rcfg, s, Wrapper(job, p).bytes, source, now)
         == Members(rcfg, s, Fragments(job, p.lo, p.hi), source, now)
  {
    hide Flatten, FrameList, Members, Dispatch, Fragments, Encoded, Receiver.TableOk, Fits, EqualType1s, Wrappable,
         Config.Type1Size;
    PlainMembers(cfg, job, p);
    var ps := Fragments(job, p.lo, p.hi);
    assert Flatten(Encoded(ps)) + [] == Flatten(MembersOf(job, p));
    BundleRefines(rcfg, s, job.flags, ps, [], job.f + 8, (p.hi - p.lo) as Byte, source, now);
    MembersNeverDuplicate(rcfg, s, ps, source, now);
  }

  lemma PlainMembers(cfg: Config, job: Job, p: Pass)
    requires cfg.Valid() && !cfg.mode.Single? && job.Valid() && job.f == cfg.Type1Size() && Fits(cfg, job, p)
    requires p.retransmit == []
    ensures Wrappable(job, p) && p.lo < p.hi <= job.cut.type1s && p.hi - p.lo < 0x100
    ensures var ps := Fragments(job, p.lo, p.hi);
      && EqualType1s(ps, job.f + 8) && Encoded(ps) == MembersOf(job, p)
      && |Flatten(Encoded(ps))| == (job.f + 8) * (p.hi - p.lo)
      && Wrapper(job, p).bytes == BundleHeader(job.flags, (p.hi - p.lo) as Byte) + Flatten(MembersOf(job, p))
  {
    hide Flatten, FrameList, Fragments, EqualType1s, Fits, Job.Valid, Config.Type1Size, Encoded, Frame;
    FitsWrappable(cfg, job, p);
    BundleBytes(cfg, job, p, job.f + 8);
    FragmentsEncoded(job, p.lo, p.hi);
    assert [] + FrameList(job, p.lo, p.hi) == FrameList(job, p.lo, p.hi);
  }

  /** With a Type1 retransmit in front, that one is handled first, and a result other than OK or DUPLICATE,
      such as FRAGMENT_TOO_OLD, keeps the new fragments behind it from being handled. */
  lemma BundleWithRetransmit(cfg: Config, rcfg: Settings, s: Receiver, job: Job, p: Pass, source: Byte, now: int)
    requires cfg.Valid() && !cfg.mode.Single? && job.Valid() && job.f == cfg.Type1Size() && Fits(cfg, job, p)
    requires s.TableOk() && p.retransmit != [] && GetFrameType(p.retransmit[0][0]) == 1
    ensures Wrappable(job, p) && Readable(p.retransmit[0])
    ensures var again := Decode(p.retransmit[0]);
      var (t, r) := Handle(rcfg, s, again, source, now);
      && t.TableOk()
      && Dispatch(rcfg, s, Wrapper(job, p).bytes, source, now)
           == if r != Ok && r != DuplicateFragment then (t, r)
              else Members(rcfg, t, Fragments(job, p.lo, p.hi), source, now)
  {
    hide Flatten, FrameList, Dispatch, Fragments, Encoded, Encode, Decode, Handle, Receiver.TableOk, Fits, EqualType1s;
    TableIsSized(s);
    RetransmitMembers(cfg, job, p);
    var ps := [Decode(p.retransmit[0])] + Fragments(job, p.lo, p.hi);
    HandleKeepsTable(rcfg, s, ps[0], source, now);
    assert ps[1..] == Fragments(job, p.lo, p.hi);
    assert Flatten(Encoded(ps)) + [] == Flatten(MembersOf(job, p));
    BundleRefines(rcfg, s, job.flags, ps, [], job.f + 8, (1 + p.hi - p.lo) as Byte, source, now);
    MembersNeverDuplicate(rcfg, s, ps, source, now);
  }

  lemma RetransmitMembers(cfg: Config, job: Job, p: Pass)
    requires cfg.Valid() && !cfg.mode.Single? && job.Valid() && job.f == cfg.Type1Size() && Fits(cfg, job, p)
    requires p.retransmit != [] && GetFrameType(p.retransmit[0][0]) == 1
    ensures Wrappable(job, p) && Readable(p.retransmit[0]) && |p.retransmit| == 1
    ensures var ps := [Decode(p.retransmit[0])] + Fragments(job, p.lo, p.hi);
      && EqualType1s(ps, job.f + 8) && Encoded(ps) == MembersOf(job, p)
      && |Flatten(Encoded(ps))| == (job.f + 8) * (1 + p.hi - p.lo)
  {
    hide Flatten, FrameList, Fragments, Encode, Decode, Job.Valid, Config.Type1Size, Fits, EqualType1s, Encoded,
         MembersOf, GetFrameType, Wrapper, Wrappable;
    var r, size := p.retransmit[0], job.f + 8;
    OneInFront(cfg, job, p);
    Type1Read(r);
    FitsWrappable(cfg, job, p);
    BundleBytes(cfg, job, p, size);
    FragmentsEncoded(job, p.lo, p.hi);
    InFront(job, p, r, size);
  }

  lemma OneInFront(cfg: Config, job: Job, p: Pass)
    requires Fits(cfg, job, p) && p.retransmit != []
    ensures p.retransmit == [p.retransmit[0]] && |p.retransmit[0]| == job.f as int + 8
    ensures p.lo < p.hi <= job.cut.type1s
  {
    assert p.retransmit[0] in p.retransmit;
  }

  lemma InFront(job: Job, p: Pass, r: seq<Byte>, size: nat)
    requires job.Valid() && Wrappable(job, p) && p.retransmit == [r] && |r| == size && Readable(r)
    requires Decode(r).Type1? && |Decode(r).payload| + 8 == size && Encode(Decode(r)) == r
    requires EqualType1s(Fragments(job, p.lo, p.hi), size)
    requires Encoded(Fragments(job, p.lo, p.hi)) == FrameList(job, p.lo, p.hi)
    ensures var ps := [Decode(r)] + Fragments(job, p.lo, p.hi);
      EqualType1s(ps, size) && Encoded(ps) == MembersOf(job, p)
  {
    hide Decode, Encode, FrameList, Fragments, Job.Valid;
    var ps := [Decode(r)] + Fragments(job, p.lo, p.hi);
    assert ps[1..] == Fragments(job, p.lo, p.hi);
  }

  lemma Type1Read(r: seq<Byte>)
    requires |r| >= 8 && GetFrameType(r[0]) == 1
    ensures Readable(r) && Decode(r).Type1? && |Decode(r).payload| + 8 == |r| && Encode(Decode(r)) == r
  {
    EncodeDecode(r);
    hide Encode;
  }

  lemma {:induction false} MembersNeverDuplicate(cfg: Settings, s: Receiver, ps: seq<Packet>, source: Byte, now: int)
    requires s.TableOk()
    ensures Members(cfg, s, ps, source, now).1 != DuplicateFragment
    decreases |ps|
  {
    hide Handle, Receiver.Pending, Receiver.Listed;
    if ps != [] {
      HandleKeepsTable(cfg, s, ps[0], source, now);
      MembersNeverDuplicate(cfg, Handle(cfg, s, ps[0], source, now).0, ps[1..], source, now);
    }
  }

  /** The sender puts any retransmit of the right length first in the bundle. If it is not a Type1 frame,
      the receiver rejects the bundle there, and none of the new fragments behind it is handled. */
  lemma BundleRejected(cfg: Config, rcfg: Settings, s: Receiver, job: Job, p: Pass, source: Byte, now: int)
    requires cfg.Valid() && !cfg.mode.Single? && job.Valid() && job.f == cfg.Type1Size() && Fits(cfg, job, p)
    requires s.TableOk() && p.retransmit != [] && GetFrameType(p.retransmit[0][0]) != 1
    ensures Wrappable(job, p)
    ensures Dispatch(rcfg, s, Wrapper(job, p).bytes, source, now) == (s, InvalidParameter)
  {
    var size := job.f + 8;
    BundleBytes(cfg, job, p, size);
    var members := MembersOf(job, p);
    assert p.retransmit[0] in p.retransmit && members[0] == p.retransmit[0];
    var tail := Flatten(members);
    assert tail[0] == p.retransmit[0][0] && Flatten(Encoded([])) + tail == tail;
    var count := |p.retransmit| + p.hi - p.lo;
    DivExactMod(|tail|, size, count);
    SlotMono(size, 1, count);
    SlotIsProduct(size, count);
    hide Flatten, FrameList, Dispatch, Slot, Receiver.Pending, Receiver.Listed;
    BundleRefines(rcfg, s, job.flags, [], tail, size, count as Byte, source, now);
  }
}
