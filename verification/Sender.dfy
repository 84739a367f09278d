/** The sender class of efp.h: fragments payloads into its buffers, retains what it sends, and answers
    NACKs. Every method is proved to compute the functions of SenderSpec and Retention. */
module SenderClass {
  import opened Wire
  import opened Fragmenter
  import opened NackRanges
  import opened Results
  import opened Retention
  import opened SenderSpec

  class Sender {
    const cfg: Config
    const sendBuffer: array<Byte>
    const bundleBuffer: array<Byte>
    var superFrameNo: Word16
    var retentionBuffer: map<Key, Retained>
    var retentionOrder: seq<Ticket>
    var retransmitQueue: seq<Ticket>
    var queuedRetransmits: set<nat>
    var retentionGeneration: nat
    var retentionBufferBytes: int
    // The invocations of the send callback so far.
    var sent: seq<Emission>

    ghost predicate Valid() {
      && cfg.Valid() && sendBuffer != bundleBuffer
      && sendBuffer.Length == cfg.mtu && bundleBuffer.Length == (if cfg.mode.Single? then 0 else cfg.mtu)
    }

    ghost function Kept(): Store
      reads this
    {
      Store(retentionBuffer, retentionOrder, retransmitQueue, queuedRetransmits, retentionGeneration,
            retentionBufferBytes)
    }

    ghost function Now(): State
      reads this
    {
      State(superFrameNo, Kept(), sent)
    }

    constructor (mtu: Word16, mode: Mode, retentionMs: Word32, maxBytes: nat)
      ensures Valid() && fresh(sendBuffer) && fresh(bundleBuffer)
      ensures cfg == Config(if mtu < 256 then 256 else mtu, mode, retentionMs, maxBytes)
      ensures Now() == State(0, EMPTY, [])
    {
      var size: Word16 := if mtu < 256 then 256 else mtu;
      cfg := Config(size, mode, retentionMs, maxBytes);
      sendBuffer := new Byte[size];
      bundleBuffer := new Byte[if mode.Single? then 0 else size];
      superFrameNo := 0;
      retentionBuffer, retentionOrder, retransmitQueue, queuedRetransmits := map[], [], [], {};
      retentionGeneration, retentionBufferBytes, sent := 0, 0, [];
    }

    // ----- retention -----

    method EvictOldRetention(required: nat, now: int)
      modifies this
      ensures Now() == old(Now()).(store := Evict(LimitsOf(cfg), old(Kept()), now, required))
    {
      var cutoff := now - cfg.retentionMs * 1000;
      while retentionOrder != []
        invariant superFrameNo == old(superFrameNo) && sent == old(sent)
        invariant Evict(LimitsOf(cfg), Kept(), now, required) == Evict(LimitsOf(cfg), old(Kept()), now, required)
        decreases |retentionOrder|
      {
        var oldest := retentionOrder[0];
        if oldest.key !in retentionBuffer || retentionBuffer[oldest.key].generation != oldest.generation {
          retentionOrder := retentionOrder[1..];
          continue;
        }
        var expired := retentionBuffer[oldest.key].timeUs < cutoff;
        var wouldExceedLimit := required > cfg.maxBytes || retentionBufferBytes > cfg.maxBytes - required;
        if !expired && !wouldExceedLimit {
          break;
        }
        retentionBufferBytes := retentionBufferBytes - |retentionBuffer[oldest.key].data|;
        retentionBuffer := retentionBuffer - {oldest.key};
        queuedRetransmits := queuedRetransmits - {oldest.generation};
        retentionOrder := retentionOrder[1..];
      }
    }

    method RetainFragment(frameNo: Word16, fragmentNo: Word16, stream: Byte, data: seq<Byte>, now: int)
      modifies this
      ensures Now() == old(Now()).(store := Retain(LimitsOf(cfg), old(Kept()), frameNo, fragmentNo, stream, data, now))
    {
      if cfg.retentionMs == 0 || |data| > cfg.maxBytes {
        return;
      }
      hide Evict, LimitsOf;
      var key := Key(frameNo, fragmentNo);
      var existingSize := if key in retentionBuffer then |retentionBuffer[key].data| else 0;
      EvictOldRetention(if |data| > existingSize then |data| - existingSize else 0, now);
      if key in retentionBuffer {
        retentionBufferBytes := retentionBufferBytes - |retentionBuffer[key].data|;
        queuedRetransmits := queuedRetransmits - {retentionBuffer[key].generation};
      }
      retentionGeneration := retentionGeneration + 1;
      retentionBufferBytes := retentionBufferBytes + |data|;
      retentionBuffer := retentionBuffer[key := Retained(now, frameNo, fragmentNo, stream, 0, retentionGeneration,
          data)];
      retentionOrder := retentionOrder + [Ticket(key, retentionGeneration)];
    }

    // ----- NACKs and retransmits -----

    /** One requested range. */
    method QueueRange(e: NackEntry)
      requires e.fragmentNo + e.extra as int <= UINT16_MAX
      modifies this`retransmitQueue, this`queuedRetransmits
      ensures Kept() == RequestRange(old(Kept()), e.stream, e.frameNo, e.fragmentNo, e.extra as int + 1)
    {
      var j := 0;
      while j <= e.extra as int
        invariant 0 <= j <= e.extra as int + 1
        invariant RequestRange(Kept(), e.stream, e.frameNo, e.fragmentNo + j, e.extra as int + 1 - j)
               == RequestRange(old(Kept()), e.stream, e.frameNo, e.fragmentNo, e.extra as int + 1)
      {
        var key := Key(e.frameNo, e.fragmentNo + j);
        if key in retentionBuffer && retentionBuffer[key].stream == e.stream
           && retentionBuffer[key].generation !in queuedRetransmits {
          var generation := retentionBuffer[key].generation;
          queuedRetransmits := queuedRetransmits + {generation};
          retransmitQueue := retransmitQueue + [Ticket(key, generation)];
        }
        j := j + 1;
      }
    }

    method ReceiveNack(data: seq<Byte>) returns (r: Result)
      modifies this
      ensures var (st, e) := NackEffect(old(Kept()), data); Now() == old(Now()).(store := st) && r == e
    {
      if |data| < 3 {
        return FrameSizeMismatch;
      }
      if GetFrameType(data[0]) != 0 {
        return InvalidParameter;
      }
      if data[1] != NACK_SUBTYPE {
        return InvalidParameter;
      }
      var count := data[2] as nat;
      if |data| != 3 + count * 6 {
        return FrameSizeMismatch;
      }
      var i := 0;
      while i < count
        invariant 0 <= i <= count
        invariant superFrameNo == old(superFrameNo) && sent == old(sent)
        invariant RequestEntries(Kept(), NackEntriesFrom(data, 3 + 6 * i, count - i))
               == RequestEntries(old(Kept()), NackEntriesFrom(data, 3, count))
      {
        var entry := DecodeEntry(data, 3 + 6 * i);
        assert NackEntriesFrom(data, 3 + 6 * i, count - i)[0] == entry;
        assert NackEntriesFrom(data, 3 + 6 * i, count - i)[1..]
            == NackEntriesFrom(data, 3 + 6 * (i + 1), count - i - 1);
        if entry.fragmentNo + entry.extra as int > UINT16_MAX {
          return BufferOutOfBounds;
        }
        QueueRange(entry);
        i := i + 1;
      }
      return Ok;
    }

    /** Takes the oldest request; none is available if its fragment was evicted or replaced. */
    method GetRetransmitFragment() returns (a: Answer)
      modifies this
      ensures superFrameNo == old(superFrameNo) && sent == old(sent)
      ensures retransmitQueue == if old(retransmitQueue) == [] then [] else old(retransmitQueue)[1..]
      ensures (Kept(), a) == if old(retransmitQueue) == [] then (old(Kept()), Nothing) else Pop(old(Kept()))
    {
      if retransmitQueue == [] {
        return Nothing;
      }
      var request := retransmitQueue[0];
      retransmitQueue := retransmitQueue[1..];
      queuedRetransmits := queuedRetransmits - {request.generation};
      if request.key !in retentionBuffer || retentionBuffer[request.key].generation != request.generation {
        return Nothing;
      }
      var e := retentionBuffer[request.key];
      a := Retransmit(e.data, e.stream);
      retentionBuffer := retentionBuffer[request.key := e.(retries := if e.retries == 255 then 0 else e.retries + 1)];
    }

    method ProcessRetransmits(maxCount: nat) returns (count: nat)
      modifies this
      ensures superFrameNo == old(superFrameNo)
      ensures forall a <- Drain(old(Kept()), maxCount).1 :: a.Retransmit?
      ensures Kept() == Drain(old(Kept()), maxCount).0 && count == |Drain(old(Kept()), maxCount).1|
      ensures sent == old(sent) + Emissions(Drain(old(Kept()), maxCount).1)
    {
      hide Pop;
      DrainAnswers(Kept(), maxCount);
      count := 0;
      while retransmitQueue != [] && count < maxCount
        invariant superFrameNo == old(superFrameNo) && count <= maxCount
        invariant forall a <- Drain(Kept(), maxCount - count).1 :: a.Retransmit?
        invariant Drain(Kept(), maxCount - count).0 == Drain(old(Kept()), maxCount).0
        invariant count + |Drain(Kept(), maxCount - count).1| == |Drain(old(Kept()), maxCount).1|
        invariant sent + Emissions(Drain(Kept(), maxCount - count).1)
          == old(sent) + Emissions(Drain(old(Kept()), maxCount).1)
        decreases |retransmitQueue|
      {
        ghost var before := Kept();
        var a := GetRetransmitFragment();
        DrainAnswers(Kept(), maxCount - count);
        if a.Retransmit? {
          DrainAnswers(Kept(), maxCount - count - 1);
          assert Drain(before, maxCount - count).1[1..] == Drain(Kept(), maxCount - count - 1).1;
          Associative(sent, [Emission(a.data, a.stream)], Emissions(Drain(Kept(), maxCount - count - 1).1));
          sent := sent + [Emission(a.data, a.stream)];
          count := count + 1;
        }
      }
    }

    // ----- sending -----

    /** memcpy into one of the buffers. */
    method Copy(buffer: array<Byte>, at: nat, bytes: seq<Byte>)
      requires at + |bytes| <= buffer.Length
      modifies buffer
      ensures buffer[..] == old(buffer[..at]) + bytes + old(buffer[at + |bytes|..])
    {
      forall i | 0 <= i < |bytes| {
        buffer[at + i] := bytes[i];
      }
    }

    /** A header and its payload at the front of the send buffer: retained, then handed to the callback. */
    method SendFrame(job: Job, k: nat, header: seq<Byte>, payload: seq<Byte>, now: int)
      requires Valid() && job.Valid() && k <= job.Of()
      requires header + payload == Frame(job, k) && |header| + |payload| <= cfg.mtu
      modifies this, sendBuffer
      ensures superFrameNo == old(superFrameNo)
      ensures Kept() == Retain(LimitsOf(cfg), old(Kept()), job.frameNo, k, job.stream, Frame(job, k), now)
      ensures sent == old(sent) + [Emission(Frame(job, k), job.stream)]
    {
      hide Frame, Retain, Header1, Header2, Header3;
      Copy(sendBuffer, 0, header);
      Copy(sendBuffer, |header|, payload);
      assert sendBuffer[..|header| + |payload|] == header + payload;
      RetainFragment(job.frameNo, k, job.stream, sendBuffer[..|header| + |payload|], now);
      sent := sent + [Emission(sendBuffer[..|header| + |payload|], job.stream)];
    }

    /** Type3 if there is one, and Type2, each in a packet of its own. */
    method SendRest(job: Job, offset: nat, now: int)
      requires Valid() && job.Valid() && offset == job.Start(job.cut.type1s)
      requires forall k | 0 <= k <= job.Of() :: |Frame(job, k)| <= cfg.mtu
      modifies this, sendBuffer
      ensures superFrameNo == old(superFrameNo)
      ensures Kept() == RetainFrames(LimitsOf(cfg), old(Kept()), job, job.cut.type1s, job.Of() + 1, now)
      ensures sent == old(sent) + Alone(job, job.cut.type1s, job.Of() + 1)
    {
      hide Frame, Header1, Header2, Header3, Retain;
      RestIs(LimitsOf(cfg), Kept(), job, now);
      hide RetainFrames, Alone;
      var dataOffset := offset;
      var of := job.Of();
      if job.cut.type3 > 0 {
        FrameParts(job, of - 1);
        SendFrame(job, of - 1, Header3(job), job.data[dataOffset..dataOffset + job.cut.type3], now);
        dataOffset := dataOffset + job.cut.type3;
      }
      FrameParts(job, of);
      SendFrame(job, of, Header2(job), job.data[dataOffset..dataOffset + job.cut.type2], now);
    }

    method SendFragmentedSingle(job: Job, now: int)
      requires Valid() && job.Valid()
      requires forall k | 0 <= k <= job.Of() :: |Frame(job, k)| <= cfg.mtu
      modifies this, sendBuffer
      ensures superFrameNo == old(superFrameNo)
      ensures Kept() == RetainFrames(LimitsOf(cfg), old(Kept()), job, 0, job.Of() + 1, now)
      ensures sent == old(sent) + Alone(job, 0, job.Of() + 1)
    {
      hide Frame, Header1, Header2, Header3, Retain;
      var dataOffset := 0;
      var fragNo := 0;
      while fragNo < job.cut.type1s
        invariant 0 <= fragNo <= job.cut.type1s && dataOffset == job.Start(fragNo)
        invariant superFrameNo == old(superFrameNo)
        invariant RetainFrames(LimitsOf(cfg), Kept(), job, fragNo, job.Of() + 1, now)
               == RetainFrames(LimitsOf(cfg), old(Kept()), job, 0, job.Of() + 1, now)
        invariant sent + Alone(job, fragNo, job.Of() + 1) == old(sent) + Alone(job, 0, job.Of() + 1)
      {
        FrameParts(job, fragNo);
        Associative(sent, [Emission(Frame(job, fragNo), job.stream)], Alone(job, fragNo + 1, job.Of() + 1));
        SendFrame(job, fragNo, Header1(job, fragNo), job.data[dataOffset..dataOffset + job.f], now);
        dataOffset := dataOffset + job.f;
        fragNo := fragNo + 1;
      }
      SendRest(job, dataOffset, now);
    }

    /** Copies new Type1 frames lo..hi-1 into the bundle and retains each from there. */
    method FillBundle(job: Job, lo: nat, hi: nat, offset: nat, now: int) returns (bundleOffset: nat)
      requires Valid() && job.Valid() && lo <= hi <= job.cut.type1s && job.f == cfg.Type1Size()
      requires offset + Slot(job.f + 8, hi - lo) <= bundleBuffer.Length
      modifies this, bundleBuffer
      ensures superFrameNo == old(superFrameNo) && sent == old(sent)
      ensures Kept() == RetainFrames(LimitsOf(cfg), old(Kept()), job, lo, hi, now)
      ensures bundleOffset <= bundleBuffer.Length
      ensures bundleBuffer[..bundleOffset] == old(bundleBuffer[..offset]) + Flatten(FrameList(job, lo, hi))
    {
      hide Frame, Header1, Retain, Flatten, FrameList, Slot, RetainFrames;
      var size := job.f + 8;
      bundleOffset := offset;
      var fragNo := lo;
      while fragNo < hi
        invariant lo <= fragNo <= hi && bundleOffset + Slot(size, hi - fragNo) <= bundleBuffer.Length
        invariant superFrameNo == old(superFrameNo) && sent == old(sent)
        invariant RetainFrames(LimitsOf(cfg), Kept(), job, fragNo, hi, now)
               == RetainFrames(LimitsOf(cfg), old(Kept()), job, lo, hi, now)
        invariant bundleBuffer[..bundleOffset] + Flatten(FrameList(job, fragNo, hi))
               == old(bundleBuffer[..offset]) + Flatten(FrameList(job, lo, hi))
      {
        FramesStep(job, fragNo, hi);
        RetainStep(LimitsOf(cfg), Kept(), job, fragNo, hi, now);
        ghost var done := bundleBuffer[..bundleOffset];
        CopyFrame(job, fragNo, bundleOffset);
        Associative(done, Frame(job, fragNo), Flatten(FrameList(job, fragNo + 1, hi)));
        RetainFragment(job.frameNo, fragNo, job.stream, bundleBuffer[bundleOffset..bundleOffset + size], now);
        bundleOffset := bundleOffset + size;
        fragNo := fragNo + 1;
      }
      FramesEnd(job, hi);
      RetainEnd(LimitsOf(cfg), Kept(), job, hi, now);
    }

    /** Header and payload of one new Type1 frame at its place in the bundle. */
    method CopyFrame(job: Job, k: nat, at: nat)
      requires job.Valid() && k < job.cut.type1s && at + job.f + 8 <= bundleBuffer.Length
      modifies bundleBuffer
      ensures bundleBuffer[at..at + job.f + 8] == Frame(job, k)
      ensures bundleBuffer[..at + job.f + 8] == old(bundleBuffer[..at]) + Frame(job, k)
    {
      hide Frame, Header1, Slot;
      FrameParts(job, k);
      Type1FrameSize(job, k);
      assert job.Start(k) + job.f == job.Start(k + 1);
      var header, payload := Header1(job, k), job.data[job.Start(k)..job.Start(k) + job.f];
      Copy(bundleBuffer, at, header);
      Copy(bundleBuffer, at + |header|, payload);
      assert bundleBuffer[at..at + job.f + 8] == header + payload;
    }

    method SendFragmentedBundled(job: Job, now: int)
      requires Valid() && !cfg.mode.Single? && job.Valid() && job.f == cfg.Type1Size()
      requires forall k | 0 <= k <= job.Of() :: |Frame(job, k)| <= cfg.mtu
      modifies this, sendBuffer, bundleBuffer
      ensures superFrameNo == old(superFrameNo)
      ensures var (st, wrappers) := Bundled(cfg, old(Kept()), job, now);
        && Kept() == RetainFrames(LimitsOf(cfg), st, job, job.cut.type1s, job.Of() + 1, now)
        && sent == old(sent) + wrappers + Alone(job, job.cut.type1s, job.Of() + 1)
    {
      SendBundles(job, now);
      SendRest(job, job.Start(job.cut.type1s), now);
    }

    method SendBundles(job: Job, now: int)
      requires Valid() && !cfg.mode.Single? && job.Valid() && job.f == cfg.Type1Size()
      modifies this, bundleBuffer
      ensures superFrameNo == old(superFrameNo)
      ensures Kept() == Bundled(cfg, old(Kept()), job, now).0
      ensures sent == old(sent) + Bundled(cfg, old(Kept()), job, now).1
    {
      hide Frame, Pop, RetainFrames, FrameList, Flatten, Job.Valid, OnePass, Wrappers, Wrappable;
      PassesWrappable(cfg, Kept(), job, now);
      var fragIdx := 0;
      while fragIdx < job.cut.type1s
        invariant 0 <= fragIdx <= job.cut.type1s
        invariant superFrameNo == old(superFrameNo)
        invariant forall p <- Passes(cfg, Kept(), job, fragIdx, now).1 :: Wrappable(job, p)
        invariant Passes(cfg, Kept(), job, fragIdx, now).0 == Passes(cfg, old(Kept()), job, 0, now).0
        invariant sent + Wrappers(job, Passes(cfg, Kept(), job, fragIdx, now).1)
               == old(sent) + Wrappers(job, Passes(cfg, old(Kept()), job, 0, now).1)
      {
        ghost var passes := Passes(cfg, Kept(), job, fragIdx, now).1;
        WrappersStep(sent, job, passes);
        fragIdx := SendBundle(job, fragIdx, now);
      }
      WrappersEnd(job);
      assert sent + [] == sent;
    }

    /** One pass of the bundling loop. */
    method SendBundle(job: Job, fragIdx: nat, now: int) returns (next: nat)
      requires Valid() && !cfg.mode.Single? && job.Valid() && job.f == cfg.Type1Size() && fragIdx < job.cut.type1s
      modifies this, bundleBuffer
      ensures superFrameNo == old(superFrameNo)
      ensures var (st, p) := OnePass(cfg, old(Kept()), job, fragIdx, now);
        Wrappable(job, p) && Kept() == st && next == p.hi && sent == old(sent) + p.direct + [Wrapper(job, p)]
    {
      hide Frame, Pop, RetainFrames, Wrapper, Job.Valid;
      var fragsInBundle := Min(cfg.mode.BundleSize(), job.cut.type1s - fragIdx);
      var retransmit: seq<seq<Byte>>, direct: seq<Emission> := [], [];
      if retransmitQueue != [] && fragsInBundle > 1 {
        var a := GetRetransmitFragment();
        if a.Retransmit? {
          if |a.data| == job.f + 8 {
            fragsInBundle := fragsInBundle - 1;
            retransmit := [a.data];
          } else {
            direct := [Emission(a.data, a.stream)];
          }
        }
      }
      sent := sent + direct;
      next := fragIdx + fragsInBundle;
      WriteBundle(job, Pass(direct, retransmit, fragIdx, next), now);
    }

    /** Bundle header, and the retransmit if there is one. */
    method WriteFront(job: Job, p: Pass) returns (bundleOffset: nat)
      requires Valid() && Wrappable(job, p) && |p.retransmit| <= 1
      requires 2 + |Flatten(p.retransmit)| <= bundleBuffer.Length
      modifies bundleBuffer
      ensures bundleOffset == 2 + |Flatten(p.retransmit)|
      ensures bundleBuffer[..bundleOffset]
           == BundleHeader(job.flags, (|p.retransmit| + p.hi - p.lo) as Byte) + Flatten(p.retransmit)
    {
      FlattenOne(p.retransmit);
      hide Flatten, MakeFrameTypeByte;
      var header := BundleHeader(job.flags, (|p.retransmit| + p.hi - p.lo) as Byte);
      Copy(bundleBuffer, 0, header);
      bundleOffset := 2;
      assert bundleBuffer[..2] == header;
      if p.retransmit != [] {
        Copy(bundleBuffer, 2, p.retransmit[0]);
        bundleOffset := 2 + |p.retransmit[0]|;
      }
    }

    /** Writes one bundle: header, retransmit if there is one, new frames. */
    method WriteBundle(job: Job, p: Pass, now: int)
      requires Valid() && !cfg.mode.Single? && job.Valid() && job.f == cfg.Type1Size()
      requires Wrappable(job, p) && Fits(cfg, job, p)
      modifies this, bundleBuffer
      ensures superFrameNo == old(superFrameNo)
      ensures Kept() == RetainFrames(LimitsOf(cfg), old(Kept()), job, p.lo, p.hi, now)
      ensures sent == old(sent) + [Wrapper(job, p)]
    {
      hide Frame, RetainFrames, FrameList, MakeFrameTypeByte, Slot, Job.Valid, Config.Type1Size, Fits, Flatten;
      FitsWrappable(cfg, job, p);
      BundleSpace(cfg, job, p);
      FlattenJoin(p.retransmit, FrameList(job, p.lo, p.hi));
      var bundleOffset := WriteFront(job, p);
      bundleOffset := FillBundle(job, p.lo, p.hi, bundleOffset, now);
      Associative(BundleHeader(job.flags, (|p.retransmit| + p.hi - p.lo) as Byte), Flatten(p.retransmit),
                  Flatten(FrameList(job, p.lo, p.hi)));
      sent := sent + [Emission(bundleBuffer[..bundleOffset], job.stream)];
    }

    /** The three-way size arithmetic of sendFragmented. */
    method Divide(size: nat, type1Size: nat) returns (cut: Cut)
      requires cfg.Valid() && type1Size == cfg.Type1Size() && size > cfg.Type2Limit()
      ensures cut == CutOf(size, type1Size, cfg.Type2Limit())
      ensures cut.type3 > 0 ==> cfg.mode.Single?
      ensures cut.Total() > 1
    {
      var remaining, type1s := size % type1Size, size / type1Size;
      var type2Max := cfg.mtu - 27;
      var type3, type2 := 0, 0;
      DivSlot(size, type1Size);
      hide *;
      if remaining == 0 {
        if type1Size <= type2Max {
          type2 := type1Size;
          type1s := type1s - 1;
        } else {
          type3 := type1Size - type2Max;
          type2 := type2Max;
          type1s := type1s - 1;
        }
      } else if remaining <= type2Max {
        type2 := remaining;
      } else {
        type3 := type1Size;
        // Unsigned 64-bit arithmetic; always overwritten below.
        type2 := (remaining - type1Size + type2Max) % 0x1_0000_0000_0000_0000;
        var combined := type1Size + type2Max;
        if remaining <= combined {
          type3 := remaining - type2Max;
          if type3 > type1Size {
            type3 := type1Size;
          }
          type2 := remaining - type3;
        }
      }
      cut := Cut(type1s, type3, type2);
      CutUnique(size, type1Size, type2Max, cut);
      CutSeveral(size, type1Size, type2Max);
    }

    method SendType2Only(job: Job, now: int)
      requires Valid() && job.Valid() && job.Of() == 0 && |Frame(job, 0)| <= cfg.mtu
      modifies this, sendBuffer
      ensures superFrameNo == (old(superFrameNo) + 1) % 0x1_0000
      ensures Kept() == RetainFrames(LimitsOf(cfg), old(Kept()), job, 0, 1, now)
      ensures sent == old(sent) + Alone(job, 0, 1)
    {
      hide Frame, RetainFrames, Alone;
      superFrameNo := if superFrameNo == UINT16_MAX then 0 else superFrameNo + 1;
      SendRest(job, 0, now);
    }

    method SendFragmented(data: seq<Byte>, payloadType: Byte, pts: Word64, dtsPtsDiff: Word32, code: Word32,
                          stream: Byte, flags: Byte, type1Size: Word16, now: int) returns (r: Result)
      requires Valid() && type1Size == cfg.Type1Size() && |data| > cfg.Type2Limit()
      modifies this, sendBuffer, bundleBuffer
      ensures TooManyFragments(cfg, |data|) ==> r == TooLargeFrame && Now() == old(Now())
      ensures !TooManyFragments(cfg, |data|) ==>
        var job := Job(data, type1Size, CutOf(|data|, type1Size, cfg.Type2Limit()), old(superFrameNo), stream,
                       GetFlags(flags), payloadType, pts, dtsPtsDiff, code);
        && r == Ok && job.Valid() && superFrameNo == (old(superFrameNo) + 1) % 0x1_0000
        && Kept() == SendJob(cfg, old(Kept()), job, now).0
        && sent == old(sent) + SendJob(cfg, old(Kept()), job, now).1
    {
      hide SendJob, RetainFrames, Alone, Frame, CutOf, Config.Type1Size, Bundled, Job.Valid, Config.Type2Limit;
      var cut := Divide(|data|, type1Size);
      if cut.Total() == 0 || cut.Total() > MAX_FRAGMENTS {
        return TooLargeFrame;
      }
      var job := Job(data, type1Size, cut, superFrameNo, stream, GetFlags(flags), payloadType, pts, dtsPtsDiff, code);
      FragmentsFit(cfg, job);
      SendJobIs(cfg, Kept(), job, now);
      superFrameNo := if superFrameNo == UINT16_MAX then 0 else superFrameNo + 1;
      if cfg.mode.Single? {
        SendFragmentedSingle(job, now);
      } else {
        Associative(sent, Bundled(cfg, Kept(), job, now).1, Alone(job, job.cut.type1s, job.Of() + 1));
        SendFragmentedBundled(job, now);
      }
      return Ok;
    }

    /** Packs and sends one payload. */
    method Send(data: seq<Byte>, payloadType: Byte, pts: Word64, dts: Word64, code: Word32, stream: Byte, flags: Byte,
                now: int) returns (r: Result)
      requires Valid()
      modifies this, sendBuffer, bundleBuffer
      ensures (Now(), r) == SenderSpec.Send(cfg, old(Now()), data, payloadType, pts, dts, code, stream, flags, now)
    {
      hide SendJob, RetainFrames, Alone, Frame, Evict, CutOf, Job.Valid;
      if data == [] {
        return InvalidParameter;
      }
      if |data| > MAX_SUPERFRAME_SIZE {
        return TooLargeFrame;
      }
      if cfg.retentionMs > 0 {
        EvictOldRetention(0, now);
      }
      var type1FrameSize := cfg.mtu;
      if !cfg.mode.Single? {
        type1FrameSize := (cfg.mtu - 2) / cfg.mode.BundleSize();
      }
      if type1FrameSize <= 8 {
        return InvalidParameter;
      }
      var diff: Word32 := UINT32_MAX;
      if dts != UINT64_MAX && pts != UINT64_MAX && pts >= dts {
        var d := pts - dts;
        if d <= UINT32_MAX - 1 {
          diff := d;
        }
      }
      assert diff == DtsPtsDiff(pts, dts);
      hide DtsPtsDiff, GetFlags;
      if |data| <= cfg.mtu - 27 {
        var job := Job(data, 0, Cut(0, 0, |data|), superFrameNo, stream, GetFlags(flags), payloadType, pts, diff, code);
        FragmentsFit(cfg, job);
        SendJobIs(cfg, Kept(), job, now);
        SendType2Only(job, now);
        return Ok;
      }
      r := SendFragmented(data, payloadType, pts, diff, code, stream, flags, type1FrameSize - 8, now);
    }
  }
}
