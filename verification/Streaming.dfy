/** Many sends: each superframe has its own number, and a stream of them comes out at the other end in order. */
module Streaming {
  import opened Wire
  import opened Fragmenter
  import opened FrameMemory
  import opened NackRanges
  import opened Results
  import opened Retention
  import opened RetentionRuns
  import opened SenderSpec
  import opened Retransmits
  import opened OnTheWire
  import opened Loads
  import opened SenderRuns
  import opened ReceiverSpec
  import opened ReceiverRuns
  import opened FrameOrder
  import opened EndToEnd
  import opened Bundles
  import opened BundleTraffic
  import opened Transmission
  import opened Holding

  // ----- numbers -----

  /** How many of the operations are sends that are accepted. */
  function Accepts(cfg: Config, ops: seq<Op>): nat
    requires cfg.Valid()
  {
    if ops == [] then 0 else (if Accepted(cfg, ops[0]) then 1 else 0) + Accepts(cfg, ops[1..])
  }

  lemma AcceptedSends(cfg: Config, op: Op)
    requires cfg.Valid() && Accepted(cfg, op)
    ensures op.Sending?
  {
  }

  /** The result of `send`; only an accepted payload sends anything and takes the next number. */
  lemma SendResult(cfg: Config, s: State, op: Op)
    requires cfg.Valid() && op.Sending?
    ensures var (t, r) := Send(cfg, s, op.data, op.payloadType, op.pts, op.dts, op.code, op.stream, op.flags, op.now);
      && t == Apply(cfg, s, op)
      && r == (if op.data == [] then InvalidParameter else if Accepted(cfg, op) then Ok else TooLargeFrame)
      && (Accepted(cfg, op) ==> t.frameNo == (s.frameNo + 1) % 0x1_0000)
      && (!Accepted(cfg, op) ==> t.frameNo == s.frameNo && t.sent == s.sent)
  {
    hide SendJob, Evict, CutOf, DtsPtsDiff, GetFlags, Encode, TooManyFragments;
  }

  lemma ApplyNumber(cfg: Config, s: State, op: Op)
    requires cfg.Valid()
    ensures Apply(cfg, s, op).frameNo == if Accepted(cfg, op) then (s.frameNo + 1) % 0x1_0000 else s.frameNo
  {
    hide Send, Drain, NackEffect, TooManyFragments;
    if op.Sending? { SendResult(cfg, s, op); }
  }

  lemma {:induction false} RunNumber(cfg: Config, s: State, ops: seq<Op>)
    requires cfg.Valid()
    ensures RunOps(cfg, s, ops).frameNo == (s.frameNo + Accepts(cfg, ops)) % 0x1_0000
    decreases |ops|
  {
    hide Apply, Accepted;
    if ops != [] {
      ApplyNumber(cfg, s, ops[0]);
      RunNumber(cfg, Apply(cfg, s, ops[0]), ops[1..]);
    }
  }

  /** What one operation puts on the wire. */
  function Packets(cfg: Config, s: State, op: Op): seq<Emission>
    requires cfg.Valid() && op.Sending?
  {
    NewEmissions(cfg, s, op.data, op.payloadType, op.pts, op.dts, op.code, op.stream, op.flags, op.now)
  }

  function OpLoads(cfg: Config, s: State, op: Op): seq<Load>
    requires cfg.Valid() && Accepted(cfg, op)
  {
    JobLoads(cfg, SendingStore(cfg, s, op.now), OpJob(cfg, s, op), op.now)
  }

  lemma PacketsAre(cfg: Config, s: State, op: Op)
    requires cfg.Valid() && Accepted(cfg, op)
    ensures var job := OpJob(cfg, s, op);
      && Packets(cfg, s, op) == SendJob(cfg, Evicted(cfg, s, op.now), job, op.now).1
      && Apply(cfg, s, op).sent == s.sent + Packets(cfg, s, op) && job.frameNo == s.frameNo && job.stream == op.stream
      && Sends(cfg, s, op.data, op.payloadType, op.pts, op.dts, op.code, op.stream, op.flags, op.now, job,
               Packets(cfg, s, op), OpLoads(cfg, s, op))
  {
    hide SendJob, Evict, CutOf, DtsPtsDiff, GetFlags, Encode, JobLoads, Job.Valid;
    SendIs(cfg, s, op);
    SendResult(cfg, s, op);
  }

  /** The k-th accepted send of a run, whatever else is done before it: the packets it adds carry each fragment of its
      superframe exactly once, alone or in bundles with at most one retransmit in front, and each of these fragments
      is read back with the number `start + k` modulo 2^16. */
  lemma SendNumbered(cfg: Config, start: State, ops: seq<Op>, op: Op)
    requires cfg.Valid() && op.Sending? && Accepted(cfg, op)
    ensures var s := RunOps(cfg, start, ops);
      var job, sent := OpJob(cfg, s, op), Packets(cfg, s, op);
      && Apply(cfg, s, op).sent == s.sent + sent
      && AllCarry(cfg, job, sent, OpLoads(cfg, s, op)) && Tile(OpLoads(cfg, s, op), 0, job.Of() + 1)
      && forall k | 0 <= k <= job.Of() ::
           && Occurs(sent, Frame(job, k), op.stream) && Readable(Frame(job, k))
           && Decode(Frame(job, k)).frameNo == (start.frameNo + Accepts(cfg, ops)) % 0x1_0000
  {
    hide RunOps, Accepted, Packets, OpLoads, AllCarry, Tile, SendJob, Evict, Occurs, Frame, Apply, OpJob, Accepts,
         Sends;
    AcceptedSends(cfg, op);
    var s := RunOps(cfg, start, ops);
    var job := OpJob(cfg, s, op);
    RunNumber(cfg, start, ops);
    PacketsAre(cfg, s, op);
    SendPackets(cfg, s, op.data, op.payloadType, op.pts, op.dts, op.code, op.stream, op.flags, op.now, job,
                Packets(cfg, s, op), OpLoads(cfg, s, op), 0, 0);
    forall k | 0 <= k <= job.Of()
      ensures Occurs(Packets(cfg, s, op), Frame(job, k), op.stream) && Readable(Frame(job, k))
      ensures Decode(Frame(job, k)).frameNo == s.frameNo
    {
      JobOccurs(cfg, Evicted(cfg, s, op.now), job, op.now, k);
      FrameNumbered(job, k);
    }
  }

  lemma FrameNumbered(job: Job, k: nat)
    requires job.Valid() && k <= job.Of()
    ensures Readable(Frame(job, k)) && Decode(Frame(job, k)).frameNo == job.frameNo
  {
    DecodeEncode(job.Fragment(k));
    hide Encode, Decode, Job.Valid;
  }

  // ----- one superframe at a time -----

  /** Nothing is pending but this order, and no bucket was opened under a later one. */
  ghost predicate Confined(s: Receiver, order: int) {
    && s.TableOk() && (forall o <- s.table :: o == order)
    && forall i | 0 <= i < |s.buckets| :: s.buckets[i].order == INT64_MAX || s.buckets[i].order <= order
  }

  /** What was delivered since then came out under this order. */
  predicate Under(before: seq<Delivered>, after: seq<Delivered>, order: int) {
    before <= after && forall k | |before| <= k < |after| :: after[k].order == order
  }

  lemma UnderTrans(a: seq<Delivered>, b: seq<Delivered>, c: seq<Delivered>, order: int)
    requires Under(a, b, order) && Under(b, c, order)
    ensures Under(a, c, order)
  {
  }

  lemma OwnConfined(cfg: Settings, s: Receiver, p: Packet, source: Byte, order: int, now: int)
    requires Confined(s, order) && s.TableOk() && NextOrder(s, p.frameNo) == order
    ensures var t := Handle(cfg, s, p, source, now).0;
      t.TableOk() && Confined(t, order) && NextOrder(t, p.frameNo) == order && t.delivered == s.delivered
  {
    hide HeaderError, AllocSize, Open, OpenMeta, NextOrder, BucketError, Place, Receiver.Pending, Receiver.Listed,
         Receiver.BucketsOk, Assembly.Ok;
    HandleKeepsTable(cfg, s, p, source, now);
    if HeaderError(p) == Ok && !s.buckets[s.Index(p.frameNo)].active {
      SameNumber(s, Handle(cfg, s, p, source, now).0, p.frameNo);
    } else {
      SameLast(s, Handle(cfg, s, p, source, now).0, p.frameNo);
    }
  }

  lemma SameLast(s: Receiver, t: Receiver, no: Word16)
    requires t.firstFrame == s.firstFrame && t.oldNo == s.oldNo && t.recalc == s.recalc
    ensures NextOrder(t, no) == NextOrder(s, no)
  {
  }

  lemma {:induction false} MembersConfined(cfg: Settings, s: Receiver, job: Job, source: Byte, order: int, lo: nat,
                                           hi: nat, now: int)
    requires Confined(s, order) && s.TableOk() && NextOrder(s, job.frameNo) == order
    requires job.Valid() && lo <= hi <= job.Of() + 1
    ensures var t := Members(cfg, s, Fragments(job, lo, hi), source, now).0;
      Confined(t, order) && NextOrder(t, job.frameNo) == order && t.delivered == s.delivered
    decreases hi - lo
  {
    hide Handle, Receiver.TableOk, Job.Valid, Fragments, Members, Confined, NextOrder;
    TableIsSized(s);
    if lo == hi {
      NoFragments(cfg, s, job, lo, source, now);
    } else {
      FragmentFrame(job, lo);
      OwnConfined(cfg, s, job.Fragment(lo), source, order, now);
      MembersStep(cfg, s, job, source, lo, hi, now);
      MembersConfined(cfg, Handle(cfg, s, job.Fragment(lo), source, now).0, job, source, order, lo + 1, hi, now);
    }
  }

  lemma SweepConfined(cfg: Settings, s: Receiver, order: int, no: Word16, now: int, delay: int -> int)
    requires Confined(s, order) && s.TableOk()
    ensures var t := Sweep(cfg, s, now, delay);
      Confined(t, order) && NextOrder(t, no) == NextOrder(s, no) && Under(s.delivered, t.delivered, order)
  {
    hide Sweep, Batch, Frames, Due, Receiver.Pending, Receiver.Listed, Receiver.BucketsOk, NextOrder;
    var t, batch := Sweep(cfg, s, now, delay), Batch(cfg, s, now);
    SweepSequence(cfg, s, now, delay);
    SameLast(s, t, no);
    SweepDelivers(cfg, s, now, delay);
    forall i | 0 <= i < |s.buckets| ensures |t.buckets| == |s.buckets| && t.buckets[i].order == s.buckets[i].order {
      SweepBucket(cfg, s, now, delay, i);
    }
    if |s.buckets| > 0 { SweepBucket(cfg, s, now, delay, 0); }
    forall k | 0 <= k < |batch| ensures Frames(s, batch)[k].order == order {
      assert batch[k] in batch;
      FramesAt(s, batch, k);
    }
  }

  /** One event of the passage. */
  lemma StepConfined(scfg: Config, cfg: Settings, s: Receiver, job: Job, source: Byte, order: int, sent: seq<Emission>,
                     loads: seq<Load>, tag: Tag)
    requires scfg.Valid() && Confined(s, order) && s.TableOk() && NextOrder(s, job.frameNo) == order
    requires job.Valid() && AllCarry(scfg, job, sent, loads) && NoFronts(loads)
    requires !tag.Strange? && (tag.Brought? ==> tag.i < |sent|)
    ensures var t := Step(cfg, s, EventOf(sent, source, tag));
      Confined(t, order) && NextOrder(t, job.frameNo) == order && Under(s.delivered, t.delivered, order)
  {
    hide Dispatch, Carries, Receiver.TableOk, Job.Valid, Sweep, Step, Members, Fragments, NoFronts, Lost, AfterFront,
         Sweeps, Confined, NextOrder;
    var e := EventOf(sent, source, tag);
    StepIs(cfg, s, e);
    var t := FrameOrder.Swept(cfg, s, e);
    if tag.Brought? {
      NoFrontAt(cfg, s, source, loads, tag.i, tag.now);
      var l := loads[tag.i];
      assert Carries(scfg, job, sent[tag.i].bytes, l);
      LoadDispatch(scfg, cfg, s, job, sent[tag.i].bytes, l, source, tag.now);
      MembersConfined(cfg, s, job, source, order, l.lo, l.hi, tag.now);
    }
    if Sweeps(cfg, e) { SweepConfined(cfg, t, order, job.frameNo, e.now, e.delay); }
  }

  lemma {:induction false} RunConfined(scfg: Config, cfg: Settings, s: Receiver, job: Job, source: Byte, order: int,
                                       sent: seq<Emission>, loads: seq<Load>, tags: seq<Tag>)
    requires scfg.Valid() && Confined(s, order) && s.TableOk() && NextOrder(s, job.frameNo) == order
    requires job.Valid() && AllCarry(scfg, job, sent, loads) && NoFronts(loads) && InRange(sent, tags)
    requires forall j | 0 <= j < |tags| :: !tags[j].Strange?
    ensures var t := After(cfg, s, source, sent, tags);
      Confined(t, order) && NextOrder(t, job.frameNo) == order && Under(s.delivered, t.delivered, order)
    decreases |tags|
  {
    hide Receiver.TableOk, Job.Valid, Step, EventOf, After, Confined, NextOrder, AllCarry, NoFronts, InRange;
    if tags == [] {
      NoEvents(cfg, s, job, source, order, sent, Done);
    } else {
      AfterStep(cfg, s, source, sent, tags);
      StepConfined(scfg, cfg, s, job, source, order, sent, loads, tags[0]);
      var t := Step(cfg, s, EventOf(sent, source, tags[0]));
      assert forall j | 0 <= j < |tags| - 1 :: tags[1..][j] == tags[j + 1];
      RunConfined(scfg, cfg, t, job, source, order, sent, loads, tags[1..]);
      UnderTrans(s.delivered, t.delivered, After(cfg, s, source, sent, tags).delivered, order);
    }
  }

  /** The packets of one send arrive in this order, each at least once, with sweeps in between and one at the end. */
  datatype Passage = Passage(first: Tag, tags: seq<Tag>, at: int, delay: int -> int)

  predicate AllArrive(sent: seq<Emission>, ph: Passage) {
    && ph.first.Brought? && ph.first.i < |sent| && InRange(sent, ph.tags)
    && (forall j | 0 <= j < |ph.tags| :: !ph.tags[j].Strange?)
    && forall i | 0 <= i < |sent| :: ph.first.i == i || Arrives(ph.tags, i)
  }

  /** ... and before the deadlines, as far as they sweep; the first packet can open a bucket for the job. */
  ghost predicate OnTime(scfg: Config, cfg: Settings, s: State, op: Op, source: Byte, ph: Passage)
    requires scfg.Valid() && Accepted(scfg, op)
  {
    var job, sent, loads := OpJob(scfg, s, op), Packets(scfg, s, op), OpLoads(scfg, s, op);
    && Good(job) && AllArrive(sent, ph) && InTime(cfg, ph.first.now, sent, source, ph.first)
    && (forall j | 0 <= j < |ph.tags| :: InTime(cfg, ph.first.now, sent, source, ph.tags[j]))
    && ph.first.i < |loads| && (loads[ph.first.i].Part? ==> OpensAt(job, loads[ph.first.i].lo))
  }

  function AfterPassage(cfg: Settings, r: Receiver, sent: seq<Emission>, source: Byte, ph: Passage): (t: Receiver)
    requires r.TableOk() && AllArrive(sent, ph)
    ensures t.TableOk()
  {
    Sweep(cfg, After(cfg, Step(cfg, r, EventOf(sent, source, ph.first)), source, sent, ph.tags), ph.at, ph.delay)
  }

  /** The frame that the user should get for this send. */
  function OpFrame(op: Op, frameNo: Word16, source: Byte, order: int): Delivered
    requires op.Sending?
  {
    SentFrame(frameNo, op.data, op.payloadType, op.pts, op.dts, op.code, op.stream, op.flags, source, order)
  }

  /** Nothing is pending, the next number unwraps to this order, and all slots were last opened before it. */
  ghost predicate Ready(r: Receiver, frameNo: Word16, order: int) {
    && r.TableOk() && r.table == map[] && NextOrder(r, frameNo) == order
    && forall i | 0 <= i < |r.buckets| ::
         !r.buckets[i].active && (r.buckets[i].order == INT64_MAX || r.buckets[i].order < order)
  }

  lemma ReadyFree(r: Receiver, job: Job, order: int)
    requires Ready(r, job.frameNo, order) && Good(job) && order < INT64_MAX
    ensures Free(r, job) && Confined(r, order)
  {
    hide NextOrder, Good, Receiver.BucketsOk, Receiver.Pending, Receiver.Listed;
  }

  /** From there one send comes out, and nothing else, and the receiver is ready for the next. */
  lemma PassageDelivers(scfg: Config, cfg: Settings, s: State, op: Op, r: Receiver, source: Byte, order: int,
                        ph: Passage)
    requires scfg.Valid() && Accepted(scfg, op) && s.store.queue == []
    requires Ready(r, s.frameNo, order) && r.TableOk() && order < INT64_MAX
    requires OnTime(scfg, cfg, s, op, source, ph) && AllArrive(Packets(scfg, s, op), ph)
    ensures var t := AfterPassage(cfg, r, Packets(scfg, s, op), source, ph);
      && t.delivered == r.delivered + [OpFrame(op, s.frameNo, source, order)]
      && Ready(t, (s.frameNo + 1) % 0x1_0000, order + 1)
  {
    hide OpJob, Packets, OpLoads, Accepted, Receiver.TableOk, Ready, Free, Confined, NextOrder, Good, Step, After,
         EventOf, Sweep, Sends, SentFrame, NoFronts, AllCarry, Job.Valid, InTime, Early, Having, Under, Arrives,
         InRange, Tile;
    AcceptedSends(scfg, op);
    var job, sent, loads := OpJob(scfg, s, op), Packets(scfg, s, op), OpLoads(scfg, s, op);
    PacketsAre(scfg, s, op);
    ReadyFree(r, job, order);
    ReadyIs(r, s.frameNo, order);
    PlainSendThenReceive(scfg, s, op.data, op.payloadType, op.pts, op.dts, op.code, op.stream, op.flags, op.now, job,
                         sent,
                         loads, cfg, r, source, ph.first, ph.tags, ph.at, ph.delay);
    PlainSends(scfg, s, op.data, op.payloadType, op.pts, op.dts, op.code, op.stream, op.flags, op.now, job, sent,
               loads);
    SendPackets(scfg, s, op.data, op.payloadType, op.pts, op.dts, op.code, op.stream, op.flags, op.now, job, sent,
                loads,
                source, order);
    StepConfined(scfg, cfg, r, job, source, order, sent, loads, ph.first);
    var m := Step(cfg, r, EventOf(sent, source, ph.first));
    RunConfined(scfg, cfg, m, job, source, order, sent, loads, ph.tags);
    var u := After(cfg, m, source, sent, ph.tags);
    SweepConfined(cfg, u, order, job.frameNo, ph.at, ph.delay);
    var t := Sweep(cfg, u, ph.at, ph.delay);
    UnderTrans(r.delivered, m.delivered, u.delivered, order);
    UnderTrans(r.delivered, u.delivered, t.delivered, order);
    OnlyThat(r.delivered, t.delivered, order, OpFrame(op, s.frameNo, source, order));
    PassageLast(scfg, cfg, s, op, r, source, order, ph);
    NextReady(t, s.frameNo, order);
  }

  /** Its number is still the last one unwrapped. */
  lemma PassageLast(scfg: Config, cfg: Settings, s: State, op: Op, r: Receiver, source: Byte, order: int, ph: Passage)
    requires scfg.Valid() && Accepted(scfg, op) && r.TableOk() && NextOrder(r, s.frameNo) == order
    requires AllArrive(Packets(scfg, s, op), ph) && OnTime(scfg, cfg, s, op, source, ph)
    requires NoFronts(OpLoads(scfg, s, op)) && Free(r, OpJob(scfg, s, op))
    ensures LastOpened(AfterPassage(cfg, r, Packets(scfg, s, op), source, ph), s.frameNo, order)
  {
    hide OpJob, Packets, OpLoads, Accepted, Receiver.TableOk, Free, NextOrder, Good, Step, After, EventOf, Sweep, Sends,
         SentFrame, AllCarry, Job.Valid, InTime, Early, Having, Arrives, InRange, Tile, LastOpened, Follows, Grows,
         Yield,
         Lost, AfterFront;
    AcceptedSends(scfg, op);
    var job, sent, loads := OpJob(scfg, s, op), Packets(scfg, s, op), OpLoads(scfg, s, op);
    PacketsAre(scfg, s, op);
    SendPackets(scfg, s, op.data, op.payloadType, op.pts, op.dts, op.code, op.stream, op.flags, op.now, job, sent,
                loads,
                source, order);
    CarryLength(scfg, job, sent, loads);
    NoFrontAt(cfg, r, source, loads, ph.first.i, ph.first.now);
    assert loads[ph.first.i].front == [];
    assert Opening(cfg, r, job, source, sent, loads, ph.first);
    assert OrderOf(cfg, r, job, source, loads, ph.first) == order;
    hide Opening, OrderOf, NoFronts;
    var after := OpeningFollows(scfg, cfg, r, job, source, sent, loads, ph.first);
    var m := Step(cfg, r, EventOf(sent, source, ph.first));
    RunLast(scfg, cfg, m, job, source, order, sent, loads, ph.tags);
    SweepLast(cfg, After(cfg, m, source, sent, ph.tags), s.frameNo, order, ph.at, ph.delay);
  }

  lemma CarryLength(cfg: Config, job: Job, sent: seq<Emission>, loads: seq<Load>)
    requires cfg.Valid() && job.Valid() && AllCarry(cfg, job, sent, loads)
    ensures |sent| == |loads|
  {
    hide Carries;
  }

  lemma {:induction false} RunLast(scfg: Config, cfg: Settings, s: Receiver, job: Job, source: Byte, order: int,
                                   sent: seq<Emission>, loads: seq<Load>, tags: seq<Tag>)
    requires scfg.Valid() && s.TableOk() && Good(job) && job.Valid() && AllCarry(scfg, job, sent, loads)
    requires NoFronts(loads) && LastOpened(s, job.frameNo, order) && InRange(sent, tags)
    requires forall j | 0 <= j < |tags| :: !tags[j].Strange?
    ensures LastOpened(After(cfg, s, source, sent, tags), job.frameNo, order)
    decreases |tags|
  {
    hide Receiver.TableOk, Job.Valid, Good, Step, EventOf, After, LastOpened, AllCarry, NoFronts, InRange;
    if tags == [] {
      NoEvents(cfg, s, job, source, order, sent, Done);
    } else {
      AfterStep(cfg, s, source, sent, tags);
      PlainLast(scfg, cfg, s, job, source, order, sent, loads, tags[0]);
      assert forall j | 0 <= j < |tags| - 1 :: tags[1..][j] == tags[j + 1];
      RunLast(scfg, cfg, Step(cfg, s, EventOf(sent, source, tags[0])), job, source, order, sent, loads, tags[1..]);
    }
  }

  lemma ReadyIs(r: Receiver, frameNo: Word16, order: int)
    requires Ready(r, frameNo, order)
    ensures r.TableOk() && NextOrder(r, frameNo) == order
  {
  }

  lemma OnlyThat(before: seq<Delivered>, after: seq<Delivered>, order: int, f: Delivered)
    requires Under(before, after, order) && Having(after, order) == Having(before, order) + [f]
    ensures after == before + [f]
  {
    hide Having;
    var more := after[|before|..];
    assert after == before + more;
    HavingConcat(before, more, order);
    HavingAll(more, order);
    SameTail(Having(before, order), more, [f]);
  }

  lemma SameTail<T>(x: seq<T>, y: seq<T>, z: seq<T>)
    requires x + y == x + z
    ensures y == z
  {
    assert y == (x + y)[|x|..];
    assert z == (x + z)[|x|..];
  }

  lemma {:induction false} HavingAll(d: seq<Delivered>, order: int)
    requires forall k | 0 <= k < |d| :: d[k].order == order
    ensures Having(d, order) == d
  {
    if d != [] {
      HavingAll(d[..|d| - 1], order);
      assert d == d[..|d| - 1] + [d[|d| - 1]];
    }
  }

  lemma NextReady(t: Receiver, frameNo: Word16, order: int)
    requires Confined(t, order) && order !in t.table && LastOpened(t, frameNo, order)
    ensures Ready(t, (frameNo + 1) % 0x1_0000, order + 1)
  {
    NextNumber(t, frameNo, order);
    hide NextOrder, Receiver.Pending, Receiver.BucketsOk;
    assert forall o :: o !in t.table.Keys;
    forall i | 0 <= i < |t.buckets| ensures !t.buckets[i].active {
      assert t.buckets[i].active ==> t.Listed(i);
    }
  }

  lemma NextNumber(t: Receiver, frameNo: Word16, order: int)
    requires !t.firstFrame && t.oldNo == frameNo && t.recalc == order
    ensures NextOrder(t, (frameNo + 1) % 0x1_0000) == order + 1
  {
  }

  // ----- a stream of superframes -----

  /** All are accepted, and the packets of each arrive in time, one send after the other. */
  ghost predicate Streams(scfg: Config, cfg: Settings, s: State, ops: seq<Op>, source: Byte, phs: seq<Passage>)
    requires scfg.Valid()
    decreases |ops|
  {
    && |phs| == |ops|
    && (ops == [] ||
        (&& Accepted(scfg, ops[0]) && AllArrive(Packets(scfg, s, ops[0]), phs[0])
         && OnTime(scfg, cfg, s, ops[0], source, phs[0])
         && Streams(scfg, cfg, Apply(scfg, s, ops[0]), ops[1..], source, phs[1..])))
  }

  /** The receiver at the end. */
  ghost function AfterAll(scfg: Config, cfg: Settings, s: State, ops: seq<Op>, r: Receiver, source: Byte,
                          phs: seq<Passage>): (t: Receiver)
    requires scfg.Valid() && r.TableOk() && Streams(scfg, cfg, s, ops, source, phs)
    ensures t.TableOk()
    decreases |ops|
  {
    if ops == [] then r
    else
      AfterAll(scfg, cfg, Apply(scfg, s, ops[0]), ops[1..],
               AfterPassage(cfg, r, Packets(scfg, s, ops[0]), source, phs[0]), source, phs[1..])
  }

  /** One frame for each send: the k-th has the k-th payload and the k-th number. */
  function OpFrames(ops: seq<Op>, start: nat, order: int, source: Byte): seq<Delivered>
    requires forall op <- ops :: op.Sending?
  {
    seq(|ops|, k requires 0 <= k < |ops| =>
      assert ops[k] in ops; OpFrame(ops[k], (start + k) % 0x1_0000, source, order + k))
  }

  lemma {:induction false} StreamDelivers(scfg: Config, cfg: Settings, s: State, ops: seq<Op>, r: Receiver,
                                          source: Byte, order: int, phs: seq<Passage>)
    requires scfg.Valid() && s.store.queue == [] && Ready(r, s.frameNo, order) && r.TableOk()
    requires Streams(scfg, cfg, s, ops, source, phs) && order + |ops| <= INT64_MAX
    ensures forall op <- ops :: op.Sending?
    ensures AfterAll(scfg, cfg, s, ops, r, source, phs).delivered
      == r.delivered + OpFrames(ops, s.frameNo, order, source)
    decreases |ops|
  {
    hide Accepted, Packets, OnTime, AllArrive, AfterPassage, Receiver.TableOk, Ready, Apply, OpFrame;
    if ops == [] {
      assert r.delivered + [] == r.delivered;
    } else {
      var op := ops[0];
      AcceptedSends(scfg, op);
      var t := AfterPassage(cfg, r, Packets(scfg, s, op), source, phs[0]);
      PassageDelivers(scfg, cfg, s, op, r, source, order, phs[0]);
      ApplyNumber(scfg, s, op);
      SendQueuesNothing(scfg, s, op);
      ReadyIs(t, (s.frameNo + 1) % 0x1_0000, order + 1);
      StreamDelivers(scfg, cfg, Apply(scfg, s, op), ops[1..], t, source, order + 1, phs[1..]);
      FramesSplit(ops, s.frameNo, order, source);
      Associative(r.delivered, [OpFrame(op, s.frameNo, source, order)],
                  OpFrames(ops[1..], (s.frameNo + 1) % 0x1_0000, order + 1, source));
    }
  }

  lemma FramesSplit(ops: seq<Op>, start: Word16, order: int, source: Byte)
    requires ops != [] && forall op <- ops :: op.Sending?
    ensures forall op <- ops[1..] :: op.Sending?
    ensures OpFrames(ops, start, order, source)
         == [OpFrame(ops[0], start, source, order)]
            + OpFrames(ops[1..], (start + 1) % 0x1_0000, order + 1, source)
  {
    hide OpFrame;
    var rest := OpFrames(ops[1..], (start + 1) % 0x1_0000, order + 1, source);
    forall k | 0 <= k < |ops|
      ensures OpFrames(ops, start, order, source)[k] == ([OpFrame(ops[0], start, source, order)] + rest)[k]
    {
      if k > 0 { NumberAfter(start, k - 1); }
    }
  }

  lemma NumberAfter(start: Word16, k: nat)
    ensures (start + 1 + k) % 0x1_0000 == ((start + 1) % 0x1_0000 + k) % 0x1_0000
  {
  }

  /** One unbroken frame for each send: the k-th has the k-th payload, the k-th number and what `send` was told. */
  predicate InSendOrder(out: seq<Delivered>, ops: seq<Op>, start: nat, source: Byte) {
    && |out| == |ops|
    && forall k | 0 <= k < |ops| ::
         && ops[k].Sending? && !out[k].broken && out[k].data == Cells(ops[k].data) && out[k].order == start + k
         && out[k] == OpFrame(ops[k], (start + k) % 0x1_0000, source, start + k)
  }

  /** A new sender and a new receiver, without retransmits: whatever the payloads, the mode and the MTU, and however
      many sends, wrapping the number as often as it takes. If the packets of each send arrive in time, in any order and
      number, one send after the other, then what has come out is one unbroken frame for each send, with its own data,
      in send order, and nothing else. */
  lemma StreamComesOut(scfg: Config, cfg: Settings, start: Word16, ops: seq<Op>, n: nat, source: Byte,
                       phs: seq<Passage>)
    requires scfg.Valid() && 0 < n && 0x1_0000 % n == 0 && Initial(n).TableOk() && start + |ops| <= INT64_MAX
    requires Streams(scfg, cfg, State(start, EMPTY, []), ops, source, phs)
    ensures InSendOrder(AfterAll(scfg, cfg, State(start, EMPTY, []), ops, Initial(n), source, phs).delivered, ops,
                        start,
                        source)
  {
    hide Initial, Streams, AfterAll, Ready, Receiver.TableOk, OpFrames, InSendOrder;
    InitialReady(n, start);
    StreamDelivers(scfg, cfg, State(start, EMPTY, []), ops, Initial(n), source, start, phs);
    assert [] + OpFrames(ops, start, start, source) == OpFrames(ops, start, start, source);
    AllInSendOrder(ops, start, source);
  }

  lemma AllInSendOrder(ops: seq<Op>, start: Word16, source: Byte)
    requires forall op <- ops :: op.Sending?
    ensures InSendOrder(OpFrames(ops, start, start, source), ops, start, source)
  {
  }

  lemma InitialReady(n: nat, start: Word16)
    requires 0 < n && 0x1_0000 % n == 0
    ensures Ready(Initial(n), start, start) && Initial(n).delivered == []
  {
  }
}
