/** What one call does to the receiver (efp.h, Receiver), as functions on its abstract state.
    Receiver.dfy holds the class whose methods are proved to compute these functions. */
module ReceiverSpec {
  import opened Wire
  import opened Fragmenter
  import opened FrameMemory
  import opened NackRanges
  import opened Ordering
  import opened Results

  const INT64_MAX: int := 0x7FFF_FFFF_FFFF_FFFF

  /** Timing parameters; `autoSweep` is RUN_TO_COMPLETION mode. */
  datatype Settings = Settings(timeoutMs: Word32, holTimeoutMs: Word32, maxNackRetries: nat, autoSweep: bool) {
    // The product is a 32-bit one.
    function TimeoutUs(): nat { timeoutMs * 1000 % 0x1_0000_0000 }
  }

  datatype Meta = Meta(payloadType: Byte, code: Word32, pts: int, dts: int, flags: Byte, stream: Byte, source: Byte)

  datatype Timing = Timing(timeoutUs: int, firstArrivalUs: int, lastNackUs: int, nackCount: nat)

  datatype Bucket = Bucket(active: bool, order: int, savedNo: Word16, meta: Meta, timing: Timing, asm: Assembly)

  datatype StreamInfo = StreamInfo(payloadType: Byte, code: Word32)

  /** A frame handed to the user. `order` is the unwrapped number it was queued under. */
  datatype Delivered = Delivered(order: int, frameNo: Word16, data: seq<Cell>, meta: Meta, broken: bool)

  /** `table` is the map of pending buckets: unwrapped number to ring index. `openings` counts
      successful bucket openings; the program itself keeps no such counter. */
  datatype Receiver = Receiver(buckets: seq<Bucket>, table: map<int, nat>, streams: seq<StreamInfo>,
                               firstFrame: bool, oldNo: Word16, recalc: int,
                               delivered: seq<Delivered>, nacks: seq<seq<Byte>>,
                               openings: nat, completeFrames: nat, brokenFrames: nat)
  {
    /** The ring is indexed by masking the frame number with a size that is a power of two. */
    predicate Sized() { 0 < |buckets| && 0x1_0000 % |buckets| == 0 && |streams| == 256 }

    function Index(no: Word16): (i: nat)
      requires Sized()
      ensures i < |buckets|
    {
      no % |buckets|
    }

    /** Every pending bucket can still take whatever it accepts. */
    predicate BucketsOk() { forall i | 0 <= i < |buckets| && buckets[i].active :: buckets[i].asm.Ok() }

    /** A key of the map leads to an active bucket with that order ... */
    predicate Pending(o: int) {
      o in table && table[o] < |buckets| && buckets[table[o]].active && buckets[table[o]].order == o
    }

    /** ... and an active bucket is found under its order, which is congruent to its frame number and so
        to its ring index. */
    predicate Listed(i: nat)
      requires Sized() && i < |buckets|
    {
      var b := buckets[i];
      b.order in table && table[b.order] == i && b.order % 0x1_0000 == b.savedNo && Index(b.savedNo) == i
    }

    /** The map of pending buckets holds exactly the active buckets, each under its own order. */
    predicate TableOk() {
      && Sized() && BucketsOk()
      && (forall o <- table :: Pending(o))
      && (forall i | 0 <= i < |buckets| && buckets[i].active :: Listed(i))
      && (!firstFrame ==> recalc % 0x1_0000 == oldNo)
    }
  }

  lemma TableIsSized(s: Receiver)
    requires s.TableOk()
    ensures s.Sized() && s.BucketsOk()
  {
  }

  /** A bucket that was never opened, and a receiver that has received nothing. */
  function Unused(): Bucket {
    Bucket(false, INT64_MAX, 0, Meta(0, UINT32_MAX, UINT64_MAX, UINT64_MAX, 0, 0, 0), Timing(0, 0, 0, 0),
           Assembly(0, 0, 0, 0, 0, {}, [], 0))
  }

  function Initial(n: nat): Receiver {
    Receiver(seq(n, i => Unused()), map[], seq(256, i => StreamInfo(0, UINT32_MAX)), true, 0, 0, [], [], 0, 0, 0)
  }

  // ----- sequence numbers -----

  /** The difference of two 16-bit numbers read as a signed 16-bit value. */
  function Delta16(a: Word16, b: Word16): int {
    var d := (a - b) % 0x1_0000;
    if d >= 0x8000 then d - 0x1_0000 else d
  }

  function NextOrder(s: Receiver, no: Word16): int {
    if s.firstFrame then no else s.recalc + Delta16(no, s.oldNo)
  }

  function Recalculated(s: Receiver, no: Word16): Receiver {
    s.(firstFrame := false, oldNo := no, recalc := NextOrder(s, no))
  }

  // ----- one fragment -----

  /** Checks on the header alone. */
  function HeaderError(p: Packet): Result {
    match p
    case Type1(_, _, _, k, of, _) =>
      if k >= MAX_FRAGMENTS || of >= MAX_FRAGMENTS || k > of then BufferOutOfBounds else Ok
    case Type2(_, _, _, size, _, of, f, pts, diff, _, payload) =>
      if size != |payload| then FrameSizeMismatch
      else if of >= MAX_FRAGMENTS then BufferOutOfBounds
      else if of > 0 && f == 0 then InvalidParameter
      else if diff != UINT32_MAX && diff > pts then InvalidParameter
      else if AllocSize(p) > MAX_SUPERFRAME_SIZE then TooLargeFrame else Ok
    case Type3(_, _, _, f, of, payload) =>
      if of >= MAX_FRAGMENTS || of == 0 then BufferOutOfBounds
      else if |payload| > f then BufferOutOfBounds
      else if AllocSize(p) > MAX_SUPERFRAME_SIZE then TooLargeFrame else Ok
  }

  lemma HeaderOkInBounds(p: Packet)
    requires HeaderError(p) == Ok
    ensures InBounds(p)
  {
  }

  /** Metadata known when the bucket opens: Type2 brings its own, the others use the stream's last. */
  function OpenMeta(s: Receiver, p: Packet, source: Byte): Meta
    requires s.Sized()
  {
    if p.Type2? then Meta(p.payloadType, p.code, p.pts, DtsFrom(p.pts, p.dtsPtsDiff), p.flags, p.stream, source)
    else
      var info := s.streams[p.stream as int];
      Meta(info.payloadType, info.code, UINT64_MAX, UINT64_MAX, p.flags, p.stream, source)
  }

  function RememberStream(s: Receiver, p: Packet): Receiver
    requires s.Sized()
  {
    if p.Type2? then s.(streams := s.streams[p.stream as int := StreamInfo(p.payloadType, p.code)]) else s
  }

  function OpenBucket(cfg: Settings, s: Receiver, p: Packet, order: int, source: Byte, now: int): Bucket
    requires s.Sized() && InBounds(p)
  {
    Bucket(true, order, p.frameNo, OpenMeta(s, p, source), Timing(now + cfg.TimeoutUs(), now, 0, 0), Open(p))
  }

  /** A fragment for a free bucket. Only here is the 64-bit order computed; a zero-size frame gets no
      memory and leaves the bucket free again. */
  function OpenStep(cfg: Settings, s: Receiver, p: Packet, source: Byte, now: int): (Receiver, Result)
    requires s.Sized() && HeaderError(p) == Ok
  {
    HeaderOkInBounds(p);
    var i, order := s.Index(p.frameNo), NextOrder(s, p.frameNo);
    var r := Recalculated(s, p.frameNo);
    if order == s.buckets[i].order then (r, FragmentTooOld)
    else if p.Type1? && AllocSize(p) > MAX_SUPERFRAME_SIZE then (r, TooLargeFrame)
    else
      var b := OpenBucket(cfg, r, p, order, source, now);
      if AllocSize(p) == 0 then
        (RememberStream(r, p).(buckets := r.buckets[i := b.(active := false)], table := r.table - {order}),
         MemoryAllocationError)
      else
        (RememberStream(r, p).(buckets := r.buckets[i := b], table := r.table[order := i], openings := r.openings + 1),
         Ok)
  }

  /** Checks against the bucket a fragment belongs to. */
  function BucketError(b: Bucket, p: Packet, source: Byte): Result
    requires HeaderError(p) == Ok && b.asm.Ok()
  {
    var a := b.asm;
    if p.frameNo != b.savedNo then BufferOutOfResources
    else if p.stream != b.meta.stream || source != b.meta.source then InvalidParameter
    else if p.ofNo != a.of then BufferOutOfBounds
    else match p
      case Type1(_, _, _, k, of, payload) =>
        if k in a.received then DuplicateFragment
        else if |payload| != a.fragSize then FrameSizeMismatch else Ok
      case Type2(_, _, _, size, _, of, f, _, _, _, payload) =>
        if of > 0 && f != a.fragSize then FrameSizeMismatch
        else if of in a.received then DuplicateFragment
        else if Type2Offset(a) + size > Slot(a.fragSize, of + 1) then BufferOutOfBounds else Ok
      case Type3(_, _, _, f, of, payload) =>
        if f != a.fragSize then FrameSizeMismatch
        else if of - 1 in a.received then DuplicateFragment
        else if Slot(a.fragSize, of - 1) + |payload| > Slot(a.fragSize, of + 1) then BufferOutOfBounds else Ok
  }

  lemma AcceptedPlaceable(b: Bucket, p: Packet, source: Byte)
    requires HeaderError(p) == Ok && b.asm.Ok()
    requires BucketError(b, p, source) == Ok
    ensures Placeable(b.asm, p)
  {
    HeaderOkInBounds(p);
  }

  function Accept(b: Bucket, p: Packet): Bucket
    requires b.asm.Ok() && Placeable(b.asm, p)
  {
    var meta := if p.Type2? then
        b.meta.(payloadType := p.payloadType, code := p.code, pts := p.pts, flags := p.flags,
                dts := DtsFrom(p.pts, p.dtsPtsDiff))
      else b.meta;
    b.(meta := meta, asm := Place(b.asm, p))
  }

  function AcceptStep(s: Receiver, p: Packet, source: Byte): (Receiver, Result)
    requires s.Sized() && s.BucketsOk() && HeaderError(p) == Ok && s.buckets[s.Index(p.frameNo)].active
  {
    var i := s.Index(p.frameNo);
    var b := s.buckets[i];
    var e := BucketError(b, p, source);
    if e != Ok then (s, e)
    else
      AcceptedPlaceable(b, p, source);
      (RememberStream(s, p).(buckets := s.buckets[i := Accept(b, p)]), Ok)
  }

  /** handleType1, handleType2 and handleType3. */
  function Handle(cfg: Settings, s: Receiver, p: Packet, source: Byte, now: int): (Receiver, Result)
    requires s.Sized() && s.BucketsOk()
  {
    var e := HeaderError(p);
    if e != Ok then (s, e)
    else if s.buckets[s.Index(p.frameNo)].active then AcceptStep(s, p, source)
    else OpenStep(cfg, s, p, source, now)
  }

  lemma AcceptKeeps(b: Bucket, p: Packet, source: Byte)
    requires HeaderError(p) == Ok && b.asm.Ok() && BucketError(b, p, source) == Ok
    ensures Placeable(b.asm, p) && Accept(b, p).asm.Ok()
  {
    AcceptedPlaceable(b, p, source);
    PlaceOk(b.asm, p);
  }

  lemma HandleKeepsSized(cfg: Settings, s: Receiver, p: Packet, source: Byte, now: int)
    requires s.Sized() && s.BucketsOk()
    ensures var t := Handle(cfg, s, p, source, now).0; t.Sized() && t.BucketsOk() && |t.buckets| == |s.buckets|
  {
    hide Place, Assembly.Ok, Placeable, AllocSize, Open, BucketError, OpenMeta, NextOrder, HeaderError;
    if HeaderError(p) == Ok {
      var b := s.buckets[s.Index(p.frameNo)];
      if b.active {
        if BucketError(b, p, source) == Ok { AcceptKeeps(b, p, source); }
      } else {
        HeaderOkInBounds(p);
        OpenOk(p);
      }
    }
  }

  // ----- a packet -----

  function HandleBytes(cfg: Settings, s: Receiver, data: seq<Byte>, source: Byte, now: int): (Receiver, Result)
    requires s.Sized() && s.BucketsOk() && data != [] && 1 <= GetFrameType(data[0]) <= 3
  {
    if Readable(data) then Handle(cfg, s, Decode(data), source, now) else (s, FrameSizeMismatch)
  }

  /** The member loop of handleType4: stops at the first member that is not Type1, or whose result is
      neither OK nor DUPLICATE. */
  function BundleLoop(cfg: Settings, s: Receiver, data: seq<Byte>, size: nat, source: Byte, now: int):
    (Receiver, Result)
    requires s.Sized() && s.BucketsOk() && size >= 8 && Multiple(|data|, size)
    decreases |data|
  {
    if |data| < size then (s, Ok)
    else if GetFrameType(data[0]) != 1 then (s, InvalidParameter)
    else
      HandleKeepsSized(cfg, s, Decode1(data[..size]), source, now);
      var (t, r) := Handle(cfg, s, Decode1(data[..size]), source, now);
      if r != Ok && r != DuplicateFragment then (t, r)
      else
        StepDown(|data|, size);
        BundleLoop(cfg, t, data[size..], size, source, now)
  }

  predicate Multiple(n: nat, size: nat) { 0 < size && n % size == 0 }

  lemma StepDown(n: nat, size: nat)
    requires Multiple(n, size) && size <= n
    ensures Multiple(n - size, size)
  {
    DivMod(n, size);
    assert n / size > 0;
    DivExactMod(n - size, size, n / size - 1);
  }

  lemma DivExactMod(x: nat, f: nat, q: nat)
    requires 0 < f && x == f * q
    ensures x % f == 0
  {
    DivExact(f, q);
    DivMod(x, f);
  }

  function HandleBundle(cfg: Settings, s: Receiver, data: seq<Byte>, source: Byte, now: int): (Receiver, Result)
    requires s.Sized() && s.BucketsOk()
  {
    if |data| < 2 then (s, FrameSizeMismatch)
    else
      var count := data[1] as nat;
      if count == 0 then (s, InvalidParameter)
      else if (|data| - 2) % count != 0 then (s, FrameSizeMismatch)
      else if (|data| - 2) / count < 8 then (s, FrameSizeMismatch)
      else
        EqualParts(|data| - 2, count);
        BundleLoop(cfg, s, data[2..], (|data| - 2) / count, source, now)
  }

  lemma EqualParts(n: nat, count: nat)
    requires 0 < count && n % count == 0 && n / count > 0
    ensures Multiple(n, n / count)
  {
    DivMod(n, count);
    DivExactMod(n, n / count, count);
  }

  /** Dispatch on the type nibble, before any sweep. */
  function Dispatch(cfg: Settings, s: Receiver, data: seq<Byte>, source: Byte, now: int): (Receiver, Result)
    requires s.Sized() && s.BucketsOk()
  {
    if data == [] || GetFrameType(data[0]) > 4 then (s, InvalidParameter)
    else if GetFrameType(data[0]) == 0 then (s, Ok)
    else if GetFrameType(data[0]) == 4 then HandleBundle(cfg, s, data, source, now)
    else HandleBytes(cfg, s, data, source, now)
  }

  // ----- the sweep (processTimeouts) -----

  predicate Due(cfg: Settings, b: Bucket, now: int) {
    || b.asm.Complete()
    || b.timing.timeoutUs <= now
    || (cfg.holTimeoutMs > 0 && now - b.timing.firstArrivalUs >= cfg.holTimeoutMs * 1000)
  }

  /** The time from which the next delay counts. */
  function NackBase(t: Timing): int { if t.lastNackUs == 0 then t.firstArrivalUs else t.lastNackUs }

  /** `delayUs` stands for the adaptive or configured NACK delay. */
  predicate NackDue(cfg: Settings, b: Bucket, now: int, delayUs: int) {
    && !b.asm.Complete()
    && b.timing.nackCount < cfg.maxNackRetries
    && NackBase(b.timing) + delayUs <= now
  }

  function NackGaps(b: Bucket): (gaps: seq<Gap>)
    requires b.asm.Ok()
    ensures |gaps| <= 255 && AllSendable(gaps)
  {
    GapsExact(b.asm.received, 0, b.asm.of + 1);
    Limited(Gaps(b.asm.received, 0, b.asm.of + 1))
  }

  /** buildNack: empty when nothing is missing. */
  function NackMessage(b: Bucket): seq<Byte>
    requires b.asm.Ok()
  {
    if NackGaps(b) == [] then [] else EncodeNack(EntryList(b.meta.stream, b.savedNo, NackGaps(b)))
  }

  function NackStep(cfg: Settings, s: Receiver, i: nat, now: int, delayUs: int): Receiver
    requires i < |s.buckets| && s.buckets[i].asm.Ok()
  {
    var b := s.buckets[i];
    if !NackDue(cfg, b, now, delayUs) || NackMessage(b) == [] then s
    else
      s.(nacks := s.nacks + [NackMessage(b)],
         buckets := s.buckets[i := b.(timing := b.timing.(lastNackUs := now, nackCount := b.timing.nackCount + 1))])
  }

  function DeliveredFrame(b: Bucket): Delivered
    requires b.asm.Ok()
  {
    Delivered(b.order, b.savedNo, b.asm.mem[..b.asm.size], b.meta, !b.asm.Complete())
  }

  /** deliverFrame. */
  function DeliverStep(s: Receiver, i: nat): Receiver
    requires i < |s.buckets| && s.buckets[i].asm.Ok()
  {
    var b := s.buckets[i];
    s.(delivered := s.delivered + [DeliveredFrame(b)],
       completeFrames := s.completeFrames + (if b.asm.Complete() then 1 else 0),
       brokenFrames := s.brokenFrames + (if b.asm.Complete() then 0 else 1),
       table := s.table - {b.order},
       buckets := s.buckets[i := b.(active := false)])
  }

  lemma NackKeepsTable(cfg: Settings, s: Receiver, o: int, now: int, delayUs: int)
    requires s.TableOk() && o in s.table && s.Pending(o)
    ensures var t := NackStep(cfg, s, s.table[o], now, delayUs); t.TableOk() && t.table == s.table
  {
    var t := NackStep(cfg, s, s.table[o], now, delayUs);
    hide NackMessage, NackDue, NackStep, Assembly.Ok;
    forall k <- t.table ensures t.Pending(k) { assert s.Pending(k); }
    forall i | 0 <= i < |t.buckets| && t.buckets[i].active ensures t.Listed(i) { assert s.Listed(i); }
  }

  /** processNacks: every pending bucket in map order. */
  function NackAll(cfg: Settings, s: Receiver, orders: seq<int>, now: int, delay: int -> int): (t: Receiver)
    requires s.TableOk() && forall o <- orders :: o in s.table
    ensures t.TableOk() && t.table == s.table
    decreases |orders|
  {
    if orders == [] then s
    else
      assert s.Pending(orders[0]);
      NackKeepsTable(cfg, s, orders[0], now, delay(orders[0]));
      NackAll(cfg, NackStep(cfg, s, s.table[orders[0]], now, delay(orders[0])), orders[1..], now, delay)
  }

  lemma DeliverKeepsTable(s: Receiver, o: int)
    requires s.TableOk() && o in s.table && s.Pending(o)
    ensures var t := DeliverStep(s, s.table[o]); t.TableOk() && t.table == s.table - {o}
  {
    var t := DeliverStep(s, s.table[o]);
    hide DeliveredFrame, Assembly.Ok;
    forall k <- t.table ensures t.Pending(k) { assert s.Pending(k); }
    forall i | 0 <= i < |t.buckets| && t.buckets[i].active ensures t.Listed(i) { assert s.Listed(i); }
  }

  function DeliverAll(s: Receiver, orders: seq<int>): (t: Receiver)
    requires s.TableOk() && StrictlyAscending(orders) && forall o <- orders :: o in s.table
    ensures t.TableOk() && t.table == s.table - (set o <- orders)
    decreases |orders|
  {
    if orders == [] then s
    else
      assert s.Pending(orders[0]);
      DeliverKeepsTable(s, orders[0]);
      DeliverAll(DeliverStep(s, s.table[orders[0]]), orders[1..])
  }

  /** The orders whose buckets are complete, timed out, or past the head-of-line limit. */
  function DueOrders(cfg: Settings, s: Receiver, orders: seq<int>, now: int): (due: seq<int>)
    requires forall o <- orders :: s.Pending(o)
    ensures forall o :: o in due <==> o in orders && s.Pending(o) && Due(cfg, s.buckets[s.table[o]], now)
  {
    if orders == [] then []
    else
      assert s.Pending(orders[0]);
      (if Due(cfg, s.buckets[s.table[orders[0]]], now) then [orders[0]] else []) + DueOrders(cfg, s, orders[1..], now)
  }

  lemma {:induction false} DueAscending(cfg: Settings, s: Receiver, orders: seq<int>, now: int)
    requires (forall o <- orders :: s.Pending(o)) && StrictlyAscending(orders)
    ensures StrictlyAscending(DueOrders(cfg, s, orders, now))
  {
    hide Due, Receiver.Pending;
    if orders != [] {
      var due := DueOrders(cfg, s, orders[1..], now);
      DueAscending(cfg, s, orders[1..], now);
      FirstBefore(orders, due);
    }
  }

  lemma FirstBefore(orders: seq<int>, due: seq<int>)
    requires orders != [] && StrictlyAscending(orders) && StrictlyAscending(due)
    requires forall o :: o in due ==> o in orders[1..]
    ensures StrictlyAscending([orders[0]] + due) && StrictlyAscending([] + due)
  {
    forall i | 0 <= i < |due| ensures orders[0] < due[i] { assert due[i] in due && due[i] in orders[1..]; }
    Prepend(orders[0], due);
    assert [] + due == due;
  }

  /** processTimeouts. */
  function Sweep(cfg: Settings, s: Receiver, now: int, delay: int -> int): (t: Receiver)
    requires s.TableOk()
    ensures t.TableOk()
  {
    var orders := Ascending(s.table.Keys);
    AscendingIs(s.table.Keys);
    var t := if cfg.maxNackRetries == 0 then s else NackAll(cfg, s, orders, now, delay);
    assert forall o <- orders :: t.Pending(o);
    DueAscending(cfg, t, orders, now);
    DeliverAll(t, DueOrders(cfg, t, orders, now))
  }
}
