/** The receiver class of efp.h: the ring of buckets, the map of pending ones, and the sweep. Every method
    is proved to compute the functions of ReceiverSpec and ReceiverRuns. */
module ReceiverClass {
  import opened Wire
  import opened Fragmenter
  import opened FrameMemory
  import opened NackRanges
  import opened Ordering
  import opened Results
  import opened ReceiverSpec
  import opened ReceiverRuns
  import opened BucketClass

  class Receiver {
    const cfg: Settings
    const buckets: seq<BucketClass.Bucket>
    // A ring index stands for the pointer to the bucket.
    var bucketMap: map<int, nat>
    var streams: seq<StreamInfo>
    var firstFrame: bool
    var oldFrameNo: Word16
    var frameNoRecalc: int
    // The invocations of the two callbacks so far.
    var delivered: seq<Delivered>
    var nacks: seq<seq<Byte>>
    var completeFrames: nat
    var brokenFrames: nat
    ghost var openings: nat

    ghost function Frames(): set<array<Cell>>
      reads buckets
    {
      set b <- buckets :: b.frame
    }

    /** No two ring slots share a bucket or frame memory. */
    ghost predicate Apart()
      reads buckets
    {
      forall i, j | 0 <= i < j < |buckets| :: buckets[i] != buckets[j] && buckets[i].frame != buckets[j].frame
    }

    ghost function Views(): (v: seq<ReceiverSpec.Bucket>)
      reads buckets, Frames()
      ensures |v| == |buckets| && forall i | 0 <= i < |v| :: v[i] == buckets[i].View()
    {
      seq(|buckets|, i requires 0 <= i < |buckets| reads buckets, Frames() => buckets[i].View())
    }

    ghost function Now(): ReceiverSpec.Receiver
      reads this, buckets, Frames()
    {
      ReceiverSpec.Receiver(Views(), bucketMap, streams, firstFrame, oldFrameNo, frameNoRecalc, delivered, nacks,
                            openings, completeFrames, brokenFrames)
    }

    ghost predicate Valid()
      reads this, buckets, Frames()
    {
      Apart() && Now().TableOk()
    }

    lemma NowIs()
      ensures Now().table == bucketMap && |Now().buckets| == |buckets|
      ensures forall i | 0 <= i < |buckets| :: Now().buckets[i] == buckets[i].View()
    {
    }

    /** Frame memory is only ever replaced by newly allocated memory. */
    twostate predicate Owned()
      reads buckets
    {
      forall i | 0 <= i < |buckets| :: buckets[i].frame == old(buckets[i].frame) || fresh(buckets[i].frame)
    }

    twostate predicate SameFrames()
      reads buckets
    {
      forall i | 0 <= i < |buckets| :: buckets[i].frame == old(buckets[i].frame)
    }

    twostate lemma OneChanged(i: nat)
      requires i < |buckets| && old(Apart())
      requires forall j | 0 <= j < |buckets| && j != i :: unchanged(buckets[j]) && unchanged(old(buckets[j].frame))
      requires buckets[i].frame == old(buckets[i].frame) || fresh(buckets[i].frame)
      ensures Apart() && Owned()
      ensures Views() == old(Views())[i := buckets[i].View()]
    {
      forall j | 0 <= j < |buckets| && j != i ensures buckets[j].View() == old(buckets[j].View()) {}
    }

    method RecalculateSuperFrameNo(no: Word16) returns (order: int)
      modifies this`firstFrame, this`oldFrameNo, this`frameNoRecalc
      ensures order == old(NextOrder(Now(), no)) && Now() == old(Recalculated(Now(), no))
    {
      if firstFrame {
        oldFrameNo := no;
        frameNoRecalc := no;
        firstFrame := false;
        return frameNoRecalc;
      }
      var delta := (no - oldFrameNo) % 0x1_0000;
      if delta >= 0x8000 { delta := delta - 0x1_0000; }
      oldFrameNo := no;
      frameNoRecalc := frameNoRecalc + delta;
      return frameNoRecalc;
    }

    // ----- one fragment -----

    method StartBucket(i: nat, order: int, p: Packet, source: Byte, now: int)
      requires Apart() && Now().Sized() && i < |buckets| && InBounds(p)
      modifies this`streams, buckets[i]
      ensures Apart() && Owned()
      ensures Now() ==
        old(RememberStream(Now(), p).(buckets := Views()[i := OpenBucket(cfg, Now(), p, order, source, now)]))
    {
      hide Open;
      var b := buckets[i];
      if p.Type1? {
        b.OpenType1(order, p, source, now, cfg.TimeoutUs(), streams[p.stream as int]);
      } else if p.Type2? {
        b.OpenType2(order, p, source, now, cfg.TimeoutUs());
      } else {
        b.OpenType3(order, p, source, now, cfg.TimeoutUs(), streams[p.stream as int]);
      }
      OneChanged(i);
      if p.Type2? {
        streams := streams[p.stream as int := StreamInfo(p.payloadType, p.code)];
      }
    }

    /** A fragment for a free slot. */
    method OpenSlot(i: nat, p: Packet, source: Byte, now: int) returns (r: Result)
      requires Valid() && HeaderError(p) == Ok && i == Now().Index(p.frameNo) && !buckets[i].active
      modifies this, buckets[i]
      ensures Apart() && Owned() && (Now(), r) == old(OpenStep(cfg, Now(), p, source, now))
    {
      hide Open, OpenBucket, AllocSize, NextOrder, ReceiverSpec.Receiver.TableOk, RememberStream;
      HeaderOkInBounds(p);
      TableIsSized(Now());
      var order := RecalculateSuperFrameNo(p.frameNo);
      if order == buckets[i].deliveryOrder {
        return FragmentTooOld;
      }
      if p.Type1? { TooLargeIff(p); }
      if p.Type1? && |p.payload| > MAX_SUPERFRAME_SIZE / (p.ofNo + 1) {
        return TooLargeFrame;
      }
      r := Install(i, order, p, source, now);
    }

    /** The bucket, its memory and the map entry; a frame of size zero gets no memory and is given up. */
    method Install(i: nat, order: int, p: Packet, source: Byte, now: int) returns (r: Result)
      requires Apart() && Now().Sized() && i < |buckets| && InBounds(p)
      modifies this, buckets[i]
      ensures Apart() && Owned()
      ensures var was, b := old(Now()), old(OpenBucket(cfg, Now(), p, order, source, now));
        if AllocSize(p) == 0 then
          && Now() == RememberStream(was, p).(buckets := was.buckets[i := b.(active := false)],
                                              table := was.table - {order})
          && r == MemoryAllocationError
        else
          && Now() == RememberStream(was, p).(buckets := was.buckets[i := b], table := was.table[order := i],
                                              openings := was.openings + 1)
          && r == Ok
    {
      hide AllocSize, OpenBucket, Apart;
      OpensWith(cfg, Now(), p, order, source, now);
      StartBucket(i, order, p, source, now);
      assert Views()[i].asm.mem == buckets[i].frame[..];
      r := Settle(i, order);
    }

    /** The map entry of a bucket just started; one without memory is given up again. */
    method Settle(i: nat, order: int) returns (r: Result)
      requires Apart() && i < |buckets|
      modifies this`bucketMap, this`openings, buckets[i]
      ensures Apart() && buckets[i].frame == old(buckets[i].frame) && Owned()
      ensures buckets[i].frame.Length == 0 ==>
        && Now() == old(Now().(buckets := Views()[i := Views()[i].(active := false)], table := bucketMap - {order}))
        && r == MemoryAllocationError
      ensures buckets[i].frame.Length > 0 ==>
        && Now() == old(Now().(table := bucketMap[order := i], openings := openings + 1))
        && r == Ok
    {
      bucketMap := bucketMap[order := i];
      if buckets[i].frame.Length == 0 {
        Discard(i, order);
        return MemoryAllocationError;
      }
      openings := openings + 1;
      return Ok;
    }

    /** Out of the map, and free again. */
    method Discard(i: nat, order: int)
      requires Apart() && i < |buckets|
      modifies this`bucketMap, buckets[i]
      ensures Owned() && Apart() && buckets[i].frame == old(buckets[i].frame)
      ensures Now() == old(Now().(table := bucketMap - {order}, buckets := Views()[i := Views()[i].(active := false)]))
    {
      bucketMap := bucketMap - {order};
      buckets[i].active := false;
      OneChanged(i);
    }

    /** A fragment that passed every check. */
    method PlaceSlot(i: nat, p: Packet)
      requires Apart() && Now().Sized() && i < |buckets| && buckets[i].Memory().Ok()
      requires Placeable(buckets[i].Memory(), p)
      modifies this`streams, buckets[i], buckets[i].frame
      ensures Apart() && Owned()
      ensures Now() == old(RememberStream(Now(), p).(buckets := Views()[i := Accept(Views()[i], p)]))
    {
      hide Accept, Placeable, Assembly.Ok;
      var b := buckets[i];
      if p.Type1? {
        b.PlaceType1(p);
      } else if p.Type2? {
        b.PlaceType2(p);
      } else {
        b.PlaceType3(p);
      }
      OneChanged(i);
      if p.Type2? {
        streams := streams[p.stream as int := StreamInfo(p.payloadType, p.code)];
      }
    }

    /** The part that the three handlers share once the header is accepted. */
    method HandleChecked(p: Packet, source: Byte, now: int) returns (r: Result)
      requires Valid() && HeaderError(p) == Ok
      modifies this, buckets, Frames()
      ensures Apart() && Owned() && (Now(), r) == old(Handle(cfg, Now(), p, source, now))
    {
      hide HeaderError, BucketError, Accept, Placeable, Assembly.Ok, ReceiverSpec.Receiver.TableOk, OpenStep,
           RememberStream;
      TableIsSized(Now());
      var i := p.frameNo % |buckets|;
      if !buckets[i].active {
        r := OpenSlot(i, p, source, now);
        return;
      }
      assert Now().buckets[i] == buckets[i].View();
      if p.Type1? {
        r := buckets[i].CheckType1(p, source);
      } else if p.Type2? {
        r := buckets[i].CheckType2(p, source);
      } else {
        r := buckets[i].CheckType3(p, source);
      }
      if r == Ok {
        AcceptedPlaceable(buckets[i].View(), p, source);
        PlaceSlot(i, p);
      }
    }

    // ----- the handlers -----

    method HandleType1(data: seq<Byte>, source: Byte, now: int) returns (r: Result)
      requires Valid() && data != [] && GetFrameType(data[0]) == 1
      modifies this, buckets, Frames()
      ensures Valid() && Owned() && (Now(), r) == old(HandleBytes(cfg, Now(), data, source, now))
    {
      hide Handle, Decode1, ReceiverSpec.Receiver.TableOk, GetFrameType;
      TableIsSized(Now());
      if |data| < HEADER1 {
        return FrameSizeMismatch;
      }
      var p := Decode1(data);
      HandleKeepsTable(cfg, Now(), p, source, now);
      if p.fragmentNo >= MAX_FRAGMENTS || p.ofNo >= MAX_FRAGMENTS {
        HeaderRejects(cfg, Now(), p, source, now);
        return BufferOutOfBounds;
      }
      if p.fragmentNo > p.ofNo {
        HeaderRejects(cfg, Now(), p, source, now);
        return BufferOutOfBounds;
      }
      r := HandleChecked(p, source, now);
    }

    method HandleType2(data: seq<Byte>, source: Byte, now: int) returns (r: Result)
      requires Valid() && data != [] && GetFrameType(data[0]) == 2
      modifies this, buckets, Frames()
      ensures Valid() && Owned() && (Now(), r) == old(HandleBytes(cfg, Now(), data, source, now))
    {
      hide Handle, Decode2, ReceiverSpec.Receiver.TableOk;
      TableIsSized(Now());
      if |data| < HEADER2 {
        return FrameSizeMismatch;
      }
      var p := Decode2(data);
      HandleKeepsTable(cfg, Now(), p, source, now);
      r := CheckHeader2(|data|, p);
      if r != Ok {
        HeaderRejects(cfg, Now(), p, source, now);
        return;
      }
      r := HandleChecked(p, source, now);
    }

    method CheckHeader2(size: nat, p: Packet) returns (r: Result)
      requires p.Type2? && size == HEADER2 + |p.payload|
      ensures r == HeaderError(p)
    {
      if size != HEADER2 + p.sizeOfData {
        return FrameSizeMismatch;
      }
      if p.ofNo >= MAX_FRAGMENTS {
        return BufferOutOfBounds;
      }
      if p.ofNo > 0 && p.type1Size == 0 {
        return InvalidParameter;
      }
      if p.dtsPtsDiff != UINT32_MAX && p.dtsPtsDiff > p.pts {
        return InvalidParameter;
      }
      SlotIsProduct(p.type1Size, p.ofNo);
      if p.type1Size * p.ofNo + p.sizeOfData > MAX_SUPERFRAME_SIZE {
        return TooLargeFrame;
      }
      return Ok;
    }

    method HandleType3(data: seq<Byte>, source: Byte, now: int) returns (r: Result)
      requires Valid() && data != [] && GetFrameType(data[0]) == 3
      modifies this, buckets, Frames()
      ensures Valid() && Owned() && (Now(), r) == old(HandleBytes(cfg, Now(), data, source, now))
    {
      hide Handle, Decode3, ReceiverSpec.Receiver.TableOk;
      TableIsSized(Now());
      if |data| < HEADER3 {
        return FrameSizeMismatch;
      }
      var p := Decode3(data);
      HandleKeepsTable(cfg, Now(), p, source, now);
      r := CheckHeader3(p);
      if r != Ok {
        HeaderRejects(cfg, Now(), p, source, now);
        return;
      }
      r := HandleChecked(p, source, now);
    }

    method CheckHeader3(p: Packet) returns (r: Result)
      requires p.Type3?
      ensures r == HeaderError(p)
    {
      if p.ofNo >= MAX_FRAGMENTS || p.ofNo == 0 {
        return BufferOutOfBounds;
      }
      if |p.payload| > p.type1Size {
        return BufferOutOfBounds;
      }
      SlotIsProduct(p.type1Size, p.ofNo + 1);
      if p.type1Size * (p.ofNo + 1) > MAX_SUPERFRAME_SIZE {
        return TooLargeFrame;
      }
      return Ok;
    }

    /** One member of a bundle: the rest of the bundle is left to do, or the bundle ends here. */
    method HandleMember(data: seq<Byte>, offset: nat, size: nat, source: Byte, now: int) returns (r: Result)
      requires Valid() && size >= HEADER1 && offset + size <= |data| && Multiple(|data| - offset, size)
      requires Now().Sized() && Now().BucketsOk()
      modifies this, buckets, Frames()
      ensures Valid() && Owned() && Now().Sized() && Now().BucketsOk() && Multiple(|data| - (offset + size), size)
      ensures old(BundleLoop(cfg, Now(), data[offset..], size, source, now))
        == if r != Ok && r != DuplicateFragment then (Now(), r)
           else BundleLoop(cfg, Now(), data[offset + size..], size, source, now)
    {
      hide HandleBytes, BundleLoop, ReceiverSpec.Receiver.TableOk, Multiple;
      MemberStep(cfg, Now(), data, offset, size, source, now);
      if GetFrameType(data[offset]) != 1 {
        return InvalidParameter;
      }
      r := HandleType1(data[offset..offset + size], source, now);
      TableIsSized(Now());
    }

    /** The member loop of a bundle. */
    method HandleMembers(data: seq<Byte>, count: nat, size: nat, source: Byte, now: int) returns (r: Result)
      requires Valid() && size >= HEADER1 && |data| == 2 + count * size && Multiple(|data| - 2, size)
      requires Now().Sized() && Now().BucketsOk()
      modifies this, buckets, Frames()
      ensures Valid() && Owned()
      ensures (Now(), r) == old(BundleLoop(cfg, Now(), data[2..], size, source, now))
    {
      hide BundleLoop, Multiple, Valid, Now, Views, ReceiverSpec.Receiver.Sized, ReceiverSpec.Receiver.BucketsOk;
      ghost var whole := BundleLoop(cfg, Now(), data[2..], size, source, now);
      var offset, k := 2, 0;
      while k < count
        invariant 0 <= k <= count && |data| == offset + (count - k) * size
        invariant Valid() && Owned() && Now().Sized() && Now().BucketsOk()
        invariant Multiple(|data| - offset, size)
        invariant BundleLoop(cfg, Now(), data[offset..], size, source, now) == whole
      {
        OneLess(count - k, size);
        r := HandleMember(data, offset, size, source, now);
        if r != Ok && r != DuplicateFragment {
          return;
        }
        offset := offset + size;
        k := k + 1;
      }
      LoopEnd(cfg, Now(), data[offset..], size, source, now);
      r := Ok;
    }

    method HandleType4(data: seq<Byte>, source: Byte, now: int) returns (r: Result)
      requires Valid() && data != [] && GetFrameType(data[0]) == 4
      modifies this, buckets, Frames()
      ensures Valid() && Owned() && (Now(), r) == old(HandleBundle(cfg, Now(), data, source, now))
    {
      hide BundleLoop, HandleBytes, ReceiverSpec.Receiver.TableOk, Multiple;
      TableIsSized(Now());
      if |data| < 2 {
        return FrameSizeMismatch;
      }
      var count := data[1] as nat;
      if count == 0 {
        return InvalidParameter;
      }
      var payloadSize := |data| - 2;
      if payloadSize % count != 0 {
        return FrameSizeMismatch;
      }
      var frameSize := payloadSize / count;
      if frameSize < HEADER1 {
        return FrameSizeMismatch;
      }
      DivMod(payloadSize, count);
      EqualParts(payloadSize, count);
      r := HandleMembers(data, count, frameSize, source, now);
    }

    // ----- the sweep -----

    method NackReady(b: BucketClass.Bucket, now: int, delayUs: int) returns (ready: bool)
      ensures ready == NackDue(cfg, b.View(), now, delayUs)
    {
      if b.fragmentCount == b.ofFragmentNo + 1 || b.nackCount >= cfg.maxNackRetries {
        return false;
      }
      var trigger := (if b.lastNackUs == 0 then b.firstArrivalUs else b.lastNackUs) + delayUs;
      return now >= trigger;
    }

    method NackBucket(i: nat, now: int, delayUs: int)
      requires Apart() && i < |buckets| && buckets[i].Memory().Ok()
      modifies this`nacks, buckets[i]
      ensures Apart() && SameFrames() && Now() == old(NackStep(cfg, Now(), i, now, delayUs))
    {
      hide NackMessage, Assembly.Ok, NackDue;
      var b := buckets[i];
      assert Now().buckets[i] == b.View();
      var ready := NackReady(b, now, delayUs);
      if !ready {
        return;
      }
      var message := b.BuildNack();
      if message == [] {
        return;
      }
      nacks := nacks + [message];
      b.lastNackUs := now;
      b.nackCount := b.nackCount + 1;
      OneChanged(i);
    }

    method ProcessNacks(now: int, delay: int -> int)
      requires Valid()
      modifies this`nacks, buckets
      ensures Valid() && SameFrames() && Now() == old(Nacked(cfg, Now(), now, delay))
    {
      if cfg.maxNackRetries == 0 {
        return;
      }
      OrdersPending(Now());
      hide ReceiverSpec.Receiver.TableOk, ReceiverSpec.Receiver.Pending, Ascending, NackAll, Apart;
      NackPending(Ascending(bucketMap.Keys), now, delay);
    }

    method NackNext(orders: seq<int>, k: nat, now: int, delay: int -> int)
      requires Apart() && Now().TableOk() && k < |orders| && forall i | k <= i < |orders| :: orders[i] in Now().table
      modifies this`nacks, buckets
      ensures Apart() && SameFrames() && Now().TableOk() && forall i | k < i < |orders| :: orders[i] in Now().table
      ensures NackRest(cfg, Now(), orders, k + 1, now, delay) == old(NackRest(cfg, Now(), orders, k, now, delay))
    {
      hide NackRest, NackStep, ReceiverSpec.Receiver.TableOk, Apart, Views, Now;
      NowIs();
      NackRestStep(cfg, Now(), orders, k, now, delay);
      NackBucket(bucketMap[orders[k]], now, delay(orders[k]));
    }

    method NackPending(orders: seq<int>, now: int, delay: int -> int)
      requires Apart() && Now().TableOk() && forall i | 0 <= i < |orders| :: orders[i] in Now().table
      modifies this`nacks, buckets
      ensures Apart() && SameFrames() && Now() == old(NackRest(cfg, Now(), orders, 0, now, delay)) && Now().TableOk()
    {
      ghost var all := NackRest(cfg, Now(), orders, 0, now, delay);
      hide *;
      var k := 0;
      while k < |orders|
        invariant 0 <= k <= |orders| && Apart() && Now().TableOk() && SameFrames()
        invariant forall i | k <= i < |orders| :: orders[i] in Now().table
        invariant NackRest(cfg, Now(), orders, k, now, delay) == all
      {
        NackNext(orders, k, now, delay);
        k := k + 1;
      }
      NackRestEnd(cfg, Now(), orders, now, delay);
    }

    method DeliverFrame(i: nat)
      requires Apart() && i < |buckets| && buckets[i].Memory().Ok()
      modifies this, buckets[i]
      ensures Apart() && SameFrames() && Now() == old(DeliverStep(Now(), i))
    {
      var b := buckets[i];
      assert Now().buckets[i] == b.View();
      var f := b.Finished();
      DeliveredBroken(b.View());
      hide DeliveredFrame, Assembly.Ok, Assembly.Complete;
      if f.broken {
        brokenFrames := brokenFrames + 1;
      } else {
        completeFrames := completeFrames + 1;
      }
      delivered := delivered + [f];
      Discard(i, b.deliveryOrder);
    }

    /** Complete, timed out, or past the head-of-line limit if there is one. */
    method BucketDue(b: BucketClass.Bucket, now: int) returns (ready: bool)
      ensures ready == Due(cfg, b.View(), now)
    {
      var complete := b.fragmentCount == b.ofFragmentNo + 1;
      var timedOut := b.timeoutUs <= now;
      ready := complete || timedOut;
      if !ready && cfg.holTimeoutMs > 0 {
        ready := now - b.firstArrivalUs >= cfg.holTimeoutMs * 1000;
      }
    }

    /** The due buckets in the order of the map, which sorting by delivery order leaves alone. */
    method DueBuckets(now: int) returns (due: seq<int>)
      requires Valid()
      ensures Apart() && SameFrames() && Now() == old(Now())
      ensures (forall o <- Ascending(bucketMap.Keys) :: Now().Pending(o))
      ensures due == DueOrders(cfg, Now(), Ascending(bucketMap.Keys), now)
    {
      ghost var s := Now();
      NowIs();
      var orders := Ascending(bucketMap.Keys);
      OrdersPending(s);
      hide *;
      ghost var all := DueOrders(cfg, s, orders, now);
      due := [];
      var k := 0;
      while k < |orders|
        invariant 0 <= k <= |orders|
        invariant due + DueRest(cfg, s, orders, k, now) == all
      {
        var o := orders[k];
        DueStep(cfg, s, orders, k, now);
        Associative(due, [o], DueRest(cfg, s, orders, k + 1, now));
        var ready := BucketDue(buckets[bucketMap[o]], now);
        if ready {
          due := due + [o];
        }
        k := k + 1;
      }
      assert Now() == s && due == all;
    }

    method DeliverAllDue(due: seq<int>)
      requires Apart() && Now().TableOk() && StrictlyAscending(due)
      requires forall i | 0 <= i < |due| :: due[i] in Now().table
      modifies this, buckets
      ensures Apart() && SameFrames() && Now() == old(DeliverRest(Now(), due, 0)) && Now().TableOk()
    {
      ghost var all := DeliverRest(Now(), due, 0);
      hide *;
      var k := 0;
      while k < |due|
        invariant 0 <= k <= |due| && Apart() && Now().TableOk() && SameFrames()
        invariant forall i | k <= i < |due| :: due[i] in Now().table
        invariant DeliverRest(Now(), due, k) == all
      {
        DeliverNext(due, k);
        k := k + 1;
      }
      DeliverRestEnd(Now(), due);
    }

    method DeliverNext(due: seq<int>, k: nat)
      requires Apart() && Now().TableOk() && k < |due| && StrictlyAscending(due)
      requires forall i | k <= i < |due| :: due[i] in Now().table
      modifies this, buckets
      ensures Apart() && SameFrames() && Now().TableOk() && forall i | k < i < |due| :: due[i] in Now().table
      ensures DeliverRest(Now(), due, k + 1) == old(DeliverRest(Now(), due, k))
    {
      hide DeliverRest, DeliverStep, ReceiverSpec.Receiver.TableOk, Apart, Views, Now, StrictlyAscending;
      NowIs();
      DeliverRestStep(Now(), due, k);
      DeliverFrame(bucketMap[due[k]]);
    }

    method DeliverDue(now: int, ghost was: ReceiverSpec.Receiver, ghost delay: int -> int)
      requires Valid() && was.TableOk() && Now() == Nacked(cfg, was, now, delay)
      modifies this, buckets
      ensures Apart() && SameFrames() && Now() == DeliverAll(Nacked(cfg, was, now, delay), Batch(cfg, was, now))
        && Now().TableOk()
    {
      hide Nacked, ReceiverSpec.Receiver.TableOk, Apart, Views, Now, StrictlyAscending, DeliverAll,
           ReceiverSpec.Receiver.Pending, DeliverRest, Sort, Batch, DueOrders, Ascending;
      BatchIs(cfg, was, now, delay);
      NowIs();
      var due := DueBuckets(now);
      NowIs();
      due := Sort(due);
      DeliverAllDue(due);
    }

    method ProcessTimeouts(now: int, delay: int -> int)
      requires Valid()
      modifies this, buckets
      ensures Valid() && SameFrames() && Now() == old(Sweep(cfg, Now(), now, delay))
    {
      ghost var was := Now();
      SweepIs(cfg, was, now, delay);
      hide Sweep, Nacked, ReceiverSpec.Receiver.TableOk, Apart, Views, Now, StrictlyAscending, DeliverAll,
           ReceiverSpec.Receiver.Pending;
      ProcessNacks(now, delay);
      DeliverDue(now, was, delay);
    }

    // ----- the public interface -----

    constructor (settings: Settings, bufferSize: nat)
      requires 0x1_0000 % (bufferSize + 1) == 0
      ensures Valid() && fresh(Frames()) && (forall b <- buckets :: fresh(b))
      ensures cfg == settings && Now() == Initial(bufferSize + 1)
    {
      cfg := settings;
      bucketMap, delivered, nacks := map[], [], [];
      streams := seq(256, i => StreamInfo(0, UINT32_MAX));
      firstFrame, oldFrameNo, frameNoRecalc := true, 0, 0;
      completeFrames, brokenFrames, openings := 0, 0, 0;
      var ring: seq<BucketClass.Bucket> := [];
      while |ring| < bufferSize + 1
        invariant |ring| <= bufferSize + 1
        invariant forall i | 0 <= i < |ring| :: fresh(ring[i]) && fresh(ring[i].frame) && ring[i].View() == Unused()
        invariant forall i, j | 0 <= i < j < |ring| :: ring[i] != ring[j] && ring[i].frame != ring[j].frame
      {
        var b := new BucketClass.Bucket();
        ring := ring + [b];
      }
      buckets := ring;
      new;
      assert Views() == Initial(bufferSize + 1).buckets;
      InitialInv(cfg, bufferSize + 1);
    }

    /** `receive`: handles one packet; without a worker thread it also sweeps. */
    method Receive(data: seq<Byte>, source: Byte, now: int, delay: int -> int) returns (r: Result)
      requires Valid()
      modifies this, buckets, Frames()
      ensures Valid() && Owned() && (Now(), r) == old(ReceiverRuns.Receive(cfg, Now(), data, source, now, delay))
    {
      hide HandleBytes, HandleBundle, Sweep, ReceiverSpec.Receiver.TableOk, Apart, Views, Now;
      TableIsSized(Now());
      if data == [] {
        return InvalidParameter;
      }
      DispatchKeepsTable(cfg, Now(), data, source, now);
      var kind := GetFrameType(data[0]);
      if kind == 0 {
        r := Ok;
      } else if kind == 1 {
        r := HandleType1(data, source, now);
      } else if kind == 2 {
        r := HandleType2(data, source, now);
      } else if kind == 3 {
        r := HandleType3(data, source, now);
      } else if kind == 4 {
        r := HandleType4(data, source, now);
      } else {
        return InvalidParameter;
      }
      if cfg.autoSweep {
        ProcessTimeouts(now, delay);
      }
    }

    /** `poll`: only without a worker thread, whose loop body `ProcessTimeouts` is. */
    method Poll(now: int, delay: int -> int)
      requires Valid()
      modifies this, buckets
      ensures Valid() && Now() == old(if cfg.autoSweep then Sweep(cfg, Now(), now, delay) else Now())
    {
      if !cfg.autoSweep {
        return;
      }
      ProcessTimeouts(now, delay);
    }
  }

  function DueRest(cfg: Settings, s: ReceiverSpec.Receiver, orders: seq<int>, k: nat, now: int): (due: seq<int>)
    requires k <= |orders| && forall i | k <= i < |orders| :: s.Pending(orders[i])
    ensures k == |orders| ==> due == []
  {
    DueOrders(cfg, s, orders[k..], now)
  }

  lemma DeliveredBroken(b: ReceiverSpec.Bucket)
    requires b.asm.Ok()
    ensures DeliveredFrame(b).broken <==> !b.asm.Complete()
  {
  }

  lemma DueStep(cfg: Settings, s: ReceiverSpec.Receiver, orders: seq<int>, k: nat, now: int)
    requires k < |orders| && forall i | k <= i < |orders| :: s.Pending(orders[i])
    ensures orders[k] in s.table && s.table[orders[k]] < |s.buckets|
    ensures DueRest(cfg, s, orders, k, now)
         == (if Due(cfg, s.buckets[s.table[orders[k]]], now) then [orders[k]] else [])
             + DueRest(cfg, s, orders, k + 1, now)
  {
    hide Due;
    assert orders[k..][0] == orders[k] && orders[k..][1..] == orders[k + 1..];
  }

  /** processNacks from the k-th order on. */
  function NackRest(cfg: Settings, s: ReceiverSpec.Receiver, orders: seq<int>, k: nat, now: int,
                    delay: int -> int): ReceiverSpec.Receiver
    requires s.TableOk() && k <= |orders| && forall i | k <= i < |orders| :: orders[i] in s.table
  {
    assert forall o <- orders[k..] :: o in s.table;
    NackAll(cfg, s, orders[k..], now, delay)
  }

  lemma NackRestStep(cfg: Settings, s: ReceiverSpec.Receiver, orders: seq<int>, k: nat, now: int, delay: int -> int)
    requires s.TableOk() && k < |orders| && forall i | k <= i < |orders| :: orders[i] in s.table
    ensures var o := orders[k];
      && s.Pending(o) && s.table[o] < |s.buckets| && s.buckets[s.table[o]].asm.Ok()
      && var t := NackStep(cfg, s, s.table[o], now, delay(o));
         && t.TableOk() && t.table == s.table
         && NackRest(cfg, t, orders, k + 1, now, delay) == NackRest(cfg, s, orders, k, now, delay)
  {
    PendingBucket(s, orders[k]);
    NackKeepsTable(cfg, s, orders[k], now, delay(orders[k]));
    hide NackStep, ReceiverSpec.Receiver.TableOk, ReceiverSpec.Receiver.Pending;
    assert orders[k..][0] == orders[k] && orders[k..][1..] == orders[k + 1..];
  }

  function DeliverRest(s: ReceiverSpec.Receiver, due: seq<int>, k: nat): ReceiverSpec.Receiver
    requires s.TableOk() && k <= |due| && StrictlyAscending(due) && forall i | k <= i < |due| :: due[i] in s.table
  {
    assert forall o <- due[k..] :: o in s.table;
    DeliverAll(s, due[k..])
  }

  lemma DeliverRestStep(s: ReceiverSpec.Receiver, due: seq<int>, k: nat)
    requires s.TableOk() && k < |due| && StrictlyAscending(due) && forall i | k <= i < |due| :: due[i] in s.table
    ensures var o := due[k];
      && s.Pending(o) && s.table[o] < |s.buckets| && s.buckets[s.table[o]].asm.Ok()
      && var t := DeliverStep(s, s.table[o]);
         && t.TableOk() && (forall i | k < i < |due| :: due[i] in t.table)
         && DeliverRest(t, due, k + 1) == DeliverRest(s, due, k)
  {
    PendingBucket(s, due[k]);
    DeliverKeepsTable(s, due[k]);
    hide DeliverStep, ReceiverSpec.Receiver.TableOk, ReceiverSpec.Receiver.Pending;
    assert due[k..][0] == due[k] && due[k..][1..] == due[k + 1..];
  }

  lemma DeliverRestEnd(s: ReceiverSpec.Receiver, due: seq<int>)
    requires s.TableOk() && StrictlyAscending(due)
    ensures DeliverRest(s, due, |due|) == s
  {
  }

  /** What the sweep finds due after the NACKs is the batch that was due before them, already sorted. */
  lemma BatchIs(cfg: Settings, s: ReceiverSpec.Receiver, now: int, delay: int -> int)
    requires s.TableOk()
    ensures var t, batch := Nacked(cfg, s, now, delay), Batch(cfg, s, now);
      && (forall o <- Ascending(t.table.Keys) :: t.Pending(o))
      && DueOrders(cfg, t, Ascending(t.table.Keys), now) == batch
      && Sort(batch) == batch
      && (forall i | 0 <= i < |batch| :: batch[i] in t.table)
      && DeliverRest(t, batch, 0) == DeliverAll(t, batch)
  {
    var t, batch, orders := Nacked(cfg, s, now, delay), Batch(cfg, s, now), Ascending(s.table.Keys);
    OrdersPending(s);
    OrdersPending(t);
    NackedOnly(cfg, s, now, delay);
    hide Due, Nacked, DeliverAll, DueOrders, NackOnly, Ascending, ReceiverSpec.Receiver.TableOk,
         ReceiverSpec.Receiver.Pending;
    NackedSameDue(cfg, s, t, orders, now);
    SortAscending(batch);
    forall i | 0 <= i < |batch| ensures batch[i] in t.table { assert batch[i] in batch; }
    assert batch[0..] == batch;
  }

  lemma NackRestEnd(cfg: Settings, s: ReceiverSpec.Receiver, orders: seq<int>, now: int, delay: int -> int)
    requires s.TableOk()
    ensures NackRest(cfg, s, orders, |orders|, now, delay) == s
  {
  }

  lemma TooLargeIff(p: Packet)
    requires p.Type1?
    ensures |p.payload| > MAX_SUPERFRAME_SIZE / (p.ofNo + 1) <==> AllocSize(p) > MAX_SUPERFRAME_SIZE
  {
    var n, c := |p.payload|, p.ofNo + 1;
    SlotIsProduct(n, c);
    DivMod(MAX_SUPERFRAME_SIZE, c);
    var q := MAX_SUPERFRAME_SIZE / c;
    if n <= q { MulMono(n, q, c); } else { MulMono(q + 1, n, c); }
  }

  lemma MulMono(a: nat, b: nat, c: nat)
    requires a <= b
    ensures a * c <= b * c
  {
  }

  lemma OpensWith(cfg: Settings, s: ReceiverSpec.Receiver, p: Packet, order: int, source: Byte, now: int)
    requires s.Sized() && InBounds(p)
    ensures |OpenBucket(cfg, s, p, order, source, now).asm.mem| == AllocSize(p)
  {
  }

  lemma HeaderRejects(cfg: Settings, s: ReceiverSpec.Receiver, p: Packet, source: Byte, now: int)
    requires s.TableOk() && HeaderError(p) != Ok
    ensures Handle(cfg, s, p, source, now) == (s, HeaderError(p))
  {
  }

  lemma OneLess(n: nat, size: nat)
    requires 0 < n
    ensures n * size == (n - 1) * size + size
  {
  }

  lemma MemberStep(cfg: Settings, s: ReceiverSpec.Receiver, data: seq<Byte>, offset: nat, size: nat, source: Byte,
                   now: int)
    requires s.TableOk() && size >= HEADER1 && offset + size <= |data| && Multiple(|data| - offset, size)
    ensures Multiple(|data| - (offset + size), size)
    ensures GetFrameType(data[offset]) == 1 ==>
      var t := HandleBytes(cfg, s, data[offset..offset + size], source, now).0; t.Sized() && t.BucketsOk()
    ensures BundleLoop(cfg, s, data[offset..], size, source, now) ==
      if GetFrameType(data[offset]) != 1 then (s, InvalidParameter)
      else
        var (t, r) := HandleBytes(cfg, s, data[offset..offset + size], source, now);
        if r != Ok && r != DuplicateFragment then (t, r)
        else BundleLoop(cfg, t, data[offset + size..], size, source, now)
  {
    hide Handle, Decode1, ReceiverSpec.Receiver.TableOk;
    TableIsSized(s);
    StepDown(|data| - offset, size);
    var member := data[offset..offset + size];
    HandleKeepsTable(cfg, s, Decode1(member), source, now);
    TableIsSized(Handle(cfg, s, Decode1(member), source, now).0);
    assert data[offset..][..size] == member && data[offset..][size..] == data[offset + size..];
    assert member[0] == data[offset] && data[offset..][0] == data[offset];
  }

  lemma LoopEnd(cfg: Settings, s: ReceiverSpec.Receiver, data: seq<Byte>, size: nat, source: Byte, now: int)
    requires s.Sized() && s.BucketsOk() && size >= 8 && data == []
    ensures Multiple(|data|, size) && BundleLoop(cfg, s, data, size, source, now) == (s, Ok)
  {
  }

  lemma PendingBucket(s: ReceiverSpec.Receiver, o: int)
    requires s.TableOk() && o in s.table
    ensures s.Pending(o) && s.table[o] < |s.buckets| && s.buckets[s.table[o]].asm.Ok()
  {
    assert s.Pending(o);
  }

  lemma OrdersPending(s: ReceiverSpec.Receiver)
    requires s.TableOk()
    ensures forall o <- Ascending(s.table.Keys) :: o in s.table && s.Pending(o)
    ensures forall i | 0 <= i < |Ascending(s.table.Keys)| :: Ascending(s.table.Keys)[i] in s.table
  {
    var orders := Ascending(s.table.Keys);
    AscendingIs(s.table.Keys);
    assert forall i | 0 <= i < |orders| :: orders[i] in orders;
  }
}
