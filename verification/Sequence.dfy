/** Sequence numbers: unwrapping follows the true number through any number of 16-bit wraps, and within
    the receiver's window no superframe is delivered twice. */
module Sequence {
  import opened Wire
  import opened Fragmenter
  import opened FrameMemory
  import opened NackRanges
  import opened Ordering
  import opened Results
  import opened ReceiverSpec
  import opened ReceiverRuns

  // ----- tracking -----

  lemma DeltaTracks(last: int, number: int)
    requires -0x8000 <= number - last < 0x8000
    ensures Delta16(number % 0x1_0000, last % 0x1_0000) == number - last
  {
    DeltaIs(number % 0x1_0000, last % 0x1_0000);
    hide Delta16;
    var q, r := number / 0x1_0000, last / 0x1_0000;
    assert number == 0x1_0000 * q + number % 0x1_0000 && last == 0x1_0000 * r + last % 0x1_0000;
  }

  /** `recalculateSuperFrameNo` called on a list of true numbers, of which it sees the low 16 bits. */
  function Unwrap(s: Receiver, numbers: seq<int>): Receiver
    decreases |numbers|
  {
    if numbers == [] then s
    else Unwrap(Recalculated(s, numbers[0] % 0x1_0000), numbers[1..])
  }

  predicate StepsNear(last: int, numbers: seq<int>)
    decreases |numbers|
  {
    numbers == [] || (-0x8000 <= numbers[0] - last < 0x8000 && StepsNear(numbers[0], numbers[1..]))
  }

  /** If each number moves by less than 2^15 from the one before, the 64-bit value differs from the true
      number by the same constant for ever, whatever the number of wraps. */
  lemma {:induction false} UnwrapTracks(s: Receiver, last: int, numbers: seq<int>)
    requires !s.firstFrame && s.oldNo == last % 0x1_0000 && StepsNear(last, numbers)
    ensures var t := Unwrap(s, numbers);
      var end := if numbers == [] then last else numbers[|numbers| - 1];
      t.recalc - end == s.recalc - last && t.oldNo == end % 0x1_0000
    decreases |numbers|
  {
    hide Delta16;
    if numbers != [] {
      DeltaTracks(last, numbers[0]);
      UnwrapTracks(Recalculated(s, numbers[0] % 0x1_0000), numbers[0], numbers[1..]);
    }
  }

  // ----- runs annotated with true numbers -----

  datatype NumberedEvent =
    | Incoming(p: Packet, number: int, source: Byte, now: int)
    | SweepAt(now: int, delay: int -> int)

  /** What the proof knows about the numbers seen: the constant offset of the unwrapped orders, the number
      unwrapped last, the newest one, all that were unwrapped, and the ring slots ever used. */
  datatype Track = Track(offset: int, last: int, newest: int, seen: set<int>, used: set<nat>)

  function Next(cfg: Settings, s: Receiver, e: NumberedEvent): (t: Receiver)
    requires s.TableOk()
    ensures t.TableOk()
  {
    match e
    case Incoming(p, _, source, now) => HandleKeepsTable(cfg, s, p, source, now); Handle(cfg, s, p, source, now).0
    case SweepAt(now, delay) => Sweep(cfg, s, now, delay)
  }

  /** The arrival reaches a free bucket, so its number is unwrapped. */
  predicate Unwraps(s: Receiver, p: Packet)
    requires s.Sized()
  {
    HeaderError(p) == Ok && !s.buckets[s.Index(p.frameNo)].active
  }

  function NextTrack(cfg: Settings, s: Receiver, tr: Track, e: NumberedEvent): Track
    requires s.TableOk()
  {
    if e.SweepAt? || !Unwraps(s, e.p) then tr
    else
      var i, t := s.Index(e.p.frameNo), Next(cfg, s, e);
      Track(if s.firstFrame then e.p.frameNo - e.number else tr.offset,
            e.number,
            if s.firstFrame || e.number > tr.newest then e.number else tr.newest,
            tr.seen + {e.number},
            if i < |t.buckets| && t.buckets[i].order != s.buckets[i].order then tr.used + {i} else tr.used)
  }

  /** A packet that reaches a free bucket carries the low 16 bits of its true number, which moves by less
      than 2^15 from the number unwrapped last and is less than one ring size behind the newest. Nothing is
      asked of packets for pending buckets. */
  predicate Near(s: Receiver, tr: Track, e: NumberedEvent)
    requires s.Sized()
  {
    e.Incoming? && Unwraps(s, e.p) ==>
      && e.p.frameNo == e.number % 0x1_0000
      && (!s.firstFrame ==> -0x8000 <= e.number - tr.last < 0x8000 && e.number > tr.newest - |s.buckets|)
  }

  /** Bucket `i` was last opened by a packet whose true number is its order without the offset. */
  predicate OpenedAs(s: Receiver, tr: Track, i: nat)
    requires i < |s.buckets|
  {
    var b := s.buckets[i];
    && b.order - tr.offset <= tr.newest && b.order % |s.buckets| == i
    && b.order - tr.offset in tr.seen && (b.active ==> (b.order - tr.offset) % 0x1_0000 == b.savedNo)
  }

  /** The frame's order without the offset is the number of a packet that arrived, and has its low bits. */
  predicate NumberSeen(tr: Track, d: Delivered) {
    d.order - tr.offset in tr.seen && (d.order - tr.offset) % 0x1_0000 == d.frameNo
  }

  /** A delivered order is behind the bucket of its slot, strictly while that bucket is active. */
  predicate Behind(s: Receiver, tr: Track, d: Delivered)
    requires 0 < |s.buckets|
  {
    var i := d.order % |s.buckets|;
    && NumberSeen(tr, d)
    && i in tr.used && d.order <= s.buckets[i].order && (s.buckets[i].active ==> d.order < s.buckets[i].order)
  }

  predicate Distinct(d: seq<Delivered>) {
    forall j, k | 0 <= j < k < |d| :: d[j].order != d[k].order
  }

  ghost predicate Once(s: Receiver, tr: Track) {
    && s.TableOk()
    && (if s.firstFrame then tr.used == {}
        else s.recalc == tr.last + tr.offset && s.oldNo == tr.last % 0x1_0000 && tr.last <= tr.newest)
    && (forall i | 0 <= i < |s.buckets| && (s.buckets[i].active || i in tr.used) :: i in tr.used && OpenedAs(s, tr, i))
    && (forall d <- s.delivered :: Behind(s, tr, d))
    && Distinct(s.delivered)
  }

  /** Two numbers of one ring slot less than a ring apart in one direction. */
  lemma SameSlotAhead(a: int, b: int, n: nat)
    requires 0 < n && a % n == b % n && a > b - n
    ensures a >= b
  {
    DivDiff(a, n); DivDiff(b, n);
    var c := a / n - b / n;
    assert a - b == n * c by { Distribute(n, a / n, b / n); }
    MulFar(n, c);
  }

  lemma DivDiff(x: int, n: nat)
    requires 0 < n
    ensures x == n * (x / n) + x % n
  {
  }

  lemma Distribute(n: int, a: int, b: int)
    ensures n * a - n * b == n * (a - b)
  {
  }

  /** Orders opened in one bucket strictly increase. */
  lemma OpeningIncreases(s: Receiver, tr: Track, p: Packet, number: int)
    requires Once(s, tr) && Unwraps(s, p) && !s.firstFrame
    requires p.frameNo == number % 0x1_0000 && -0x8000 <= number - tr.last < 0x8000 && number > tr.newest - |s.buckets|
    ensures NextOrder(s, p.frameNo) == number + tr.offset
    ensures var i := s.Index(p.frameNo);
      i in tr.used && NextOrder(s, p.frameNo) != s.buckets[i].order ==> NextOrder(s, p.frameNo) > s.buckets[i].order
  {
    var i := s.Index(p.frameNo);
    DeltaTracks(tr.last, number);
    OrderCongruent(s, p.frameNo);
    hide Delta16, HeaderError, Distinct, Receiver.TableOk, Behind;
    if i in tr.used {
      assert OpenedAs(s, tr, i);
      SameSlotAhead(number + tr.offset, s.buckets[i].order, |s.buckets|);
    }
  }

  /** A duplicate of a delivered frame is too old exactly while its slot was last opened under its own number;
      it never was opened under an older one. */
  lemma DuplicateExactly(cfg: Settings, s: Receiver, tr: Track, p: Packet, number: int, d: Delivered, source: Byte,
                         now: int)
    requires Once(s, tr) && Unwraps(s, p) && !s.firstFrame
    requires p.frameNo == number % 0x1_0000 && -0x8000 <= number - tr.last < 0x8000
    requires d in s.delivered && d.order == number + tr.offset
    ensures Handle(cfg, s, p, source, now).1 == FragmentTooOld <==> s.buckets[s.Index(p.frameNo)].order == d.order
    ensures d.order <= s.buckets[s.Index(p.frameNo)].order
  {
    DeltaTracks(tr.last, number);
    OrderCongruent(s, p.frameNo);
    assert Behind(s, tr, d);
    hide Delta16, HeaderError, Distinct, OpenedAs, AllocSize, Open, OpenMeta, Receiver.TableOk;
  }

  /** What an opening changes: at most its own bucket, whose order becomes the unwrapped one. */
  lemma OpenEffect(cfg: Settings, s: Receiver, p: Packet, source: Byte, now: int)
    requires s.TableOk() && Unwraps(s, p)
    ensures var t := Handle(cfg, s, p, source, now).0;
      var i, o := s.Index(p.frameNo), NextOrder(s, p.frameNo);
      && |t.buckets| == |s.buckets| && t.delivered == s.delivered
      && !t.firstFrame && t.recalc == o && t.oldNo == p.frameNo
      && (forall k | 0 <= k < |s.buckets| && k != i :: t.buckets[k] == s.buckets[k])
      && (t.buckets[i] == s.buckets[i]
          || (t.buckets[i].order == o && o != s.buckets[i].order && t.buckets[i].savedNo == p.frameNo))
  {
    hide HeaderError, AllocSize, Open, OpenMeta, NextOrder, Receiver.Listed, Receiver.Pending, Assembly.Ok;
  }

  /** What any other packet changes: neither orders, nor activity, nor the unwrapped number. */
  lemma AcceptEffect(cfg: Settings, s: Receiver, p: Packet, source: Byte, now: int)
    requires s.TableOk() && !Unwraps(s, p)
    ensures var t := Handle(cfg, s, p, source, now).0;
      && |t.buckets| == |s.buckets| && t.delivered == s.delivered
      && t.firstFrame == s.firstFrame && t.recalc == s.recalc && t.oldNo == s.oldNo
      && (forall k | 0 <= k < |s.buckets| ::
            && t.buckets[k].order == s.buckets[k].order && t.buckets[k].active == s.buckets[k].active
            && t.buckets[k].savedNo == s.buckets[k].savedNo)
  {
    hide HeaderError, AllocSize, Receiver.Listed, Receiver.Pending, Assembly.Ok, BucketError, Place;
  }

  /** What opening does to the track, whether or not the bucket accepts. */
  lemma OpenTrack(cfg: Settings, s: Receiver, tr: Track, e: NumberedEvent)
    requires Once(s, tr) && e.Incoming? && Near(s, tr, e) && Unwraps(s, e.p)
    ensures var t, u, i := Next(cfg, s, e), NextTrack(cfg, s, tr, e), s.Index(e.p.frameNo);
      && !t.firstFrame && t.recalc == u.last + u.offset && t.oldNo == u.last % 0x1_0000 && u.last <= u.newest
      && u.last == e.number && NextOrder(s, e.p.frameNo) == e.number + u.offset
      && (!s.firstFrame ==> u.offset == tr.offset && tr.newest <= u.newest && tr.seen <= u.seen)
      && e.number in u.seen
      && u.used == (if t.buckets[i].order != s.buckets[i].order then tr.used + {i} else tr.used)
      && (i in tr.used && t.buckets[i].order != s.buckets[i].order ==> t.buckets[i].order > s.buckets[i].order)
  {
    HandleKeepsTable(cfg, s, e.p, e.source, e.now);
    OpenEffect(cfg, s, e.p, e.source, e.now);
    if !s.firstFrame { OpeningIncreases(s, tr, e.p, e.number); }
    hide Receiver.TableOk, Handle, Delta16, Distinct, HeaderError, Behind, OpenedAs;
  }

  lemma OpenedNow(s: Receiver, tr: Track, i: nat, number: int)
    requires i < |s.buckets| && s.buckets[i].order == number + tr.offset && number <= tr.newest && number in tr.seen
    requires s.buckets[i].order % |s.buckets| == i && s.buckets[i].savedNo == number % 0x1_0000
    ensures OpenedAs(s, tr, i)
  {
  }

  lemma OpenedStill(s: Receiver, tr: Track, t: Receiver, u: Track, i: nat)
    requires i < |s.buckets| == |t.buckets| && t.buckets[i] == s.buckets[i] && OpenedAs(s, tr, i)
    requires u.offset == tr.offset && tr.newest <= u.newest && tr.seen <= u.seen
    ensures OpenedAs(t, u, i)
  {
  }

  lemma OpenKeepsSlots(cfg: Settings, s: Receiver, tr: Track, e: NumberedEvent, i: nat)
    requires Once(s, tr) && e.Incoming? && Near(s, tr, e) && Unwraps(s, e.p) && i < |s.buckets|
    ensures var t, u := Next(cfg, s, e), NextTrack(cfg, s, tr, e);
      |t.buckets| == |s.buckets| && (t.buckets[i].active || i in u.used ==> i in u.used && OpenedAs(t, u, i))
  {
    OpenTrack(cfg, s, tr, e);
    OpenEffect(cfg, s, e.p, e.source, e.now);
    var t, u := Next(cfg, s, e), NextTrack(cfg, s, tr, e);
    assert s.buckets[i].active || i in tr.used ==> !s.firstFrame && i in tr.used && OpenedAs(s, tr, i);
    OrderCongruent(s, e.p.frameNo);
    assert e.p.frameNo == e.number % 0x1_0000;
    hide Receiver.TableOk, Handle, NextOrder, Distinct, Unwraps, Behind, NextTrack, Near, Next, Once, OpenedAs;
    if i == s.Index(e.p.frameNo) && t.buckets[i].order != s.buckets[i].order {
      OpenedNow(t, u, i, e.number);
    } else if i in tr.used {
      OpenedStill(s, tr, t, u, i);
    }
  }

  lemma BehindUsed(s: Receiver, tr: Track, d: Delivered)
    requires 0 < |s.buckets| && Behind(s, tr, d)
    ensures d.order % |s.buckets| in tr.used
  {
  }

  lemma BehindStill(s: Receiver, tr: Track, t: Receiver, u: Track, d: Delivered)
    requires 0 < |s.buckets| == |t.buckets| && Behind(s, tr, d)
    requires u.offset == tr.offset && tr.seen <= u.seen && tr.used <= u.used
    requires var i := d.order % |s.buckets|;
      t.buckets[i] == s.buckets[i] || s.buckets[i].order < t.buckets[i].order
    ensures Behind(t, u, d)
  {
  }

  lemma OpenKeepsOnce(cfg: Settings, s: Receiver, tr: Track, e: NumberedEvent)
    requires Once(s, tr) && e.Incoming? && Near(s, tr, e) && Unwraps(s, e.p)
    ensures Once(Next(cfg, s, e), NextTrack(cfg, s, tr, e))
  {
    hide Receiver.TableOk, Handle, NextOrder, Distinct, Unwraps, OpenedAs, Behind, NextTrack, Near;
    TableIsSized(s);
    var t, u := Next(cfg, s, e), NextTrack(cfg, s, tr, e);
    TableIsSized(t);
    OpenTrack(cfg, s, tr, e);
    OpenEffect(cfg, s, e.p, e.source, e.now);
    forall i | 0 <= i < |t.buckets| && (t.buckets[i].active || i in u.used)
      ensures i in u.used && OpenedAs(t, u, i)
    {
      OpenKeepsSlots(cfg, s, tr, e, i);
    }
    forall d <- t.delivered ensures Behind(t, u, d) {
      BehindUsed(s, tr, d);
      BehindStill(s, tr, t, u, d);
    }
  }

  lemma AcceptKeepsOnce(cfg: Settings, s: Receiver, tr: Track, e: NumberedEvent)
    requires Once(s, tr) && e.Incoming? && Near(s, tr, e) && !Unwraps(s, e.p)
    ensures Once(Next(cfg, s, e), NextTrack(cfg, s, tr, e))
  {
    var t, u := Next(cfg, s, e), NextTrack(cfg, s, tr, e);
    HandleKeepsTable(cfg, s, e.p, e.source, e.now);
    AcceptEffect(cfg, s, e.p, e.source, e.now);
    hide Receiver.TableOk, Handle, NextOrder, Distinct, Unwraps;
    forall i | 0 <= i < |t.buckets| && (t.buckets[i].active || i in u.used)
      ensures i in u.used && OpenedAs(t, u, i)
    {
      assert OpenedAs(s, tr, i);
    }
    hide OpenedAs;
    forall d <- t.delivered ensures Behind(t, u, d) { assert Behind(s, tr, d); }
  }

  lemma OpenedSame(s: Receiver, tr: Track, t: Receiver, i: nat)
    requires i < |s.buckets| == |t.buckets| && OpenedAs(s, tr, i) && t.buckets[i].order == s.buckets[i].order
    requires t.buckets[i].active ==> s.buckets[i].active && t.buckets[i].savedNo == s.buckets[i].savedNo
    ensures OpenedAs(t, tr, i)
  {
  }

  lemma SweepKeepsOnce(cfg: Settings, s: Receiver, tr: Track, now: int, delay: int -> int)
    requires Once(s, tr)
    ensures Once(Sweep(cfg, s, now, delay), tr)
  {
    var t := Sweep(cfg, s, now, delay);
    SweepSequence(cfg, s, now, delay);
    SweepOrders(cfg, s, now, delay);
    SweepKeepsBehind(cfg, s, tr, now, delay);
    hide Sweep, Receiver.TableOk, Distinct, Behind, OpenedAs;
    forall i | 0 <= i < |t.buckets| && (t.buckets[i].active || i in tr.used)
      ensures i in tr.used && OpenedAs(t, tr, i)
    {
      OpenedSame(s, tr, t, i);
    }
  }

  lemma SweepKeepsBehind(cfg: Settings, s: Receiver, tr: Track, now: int, delay: int -> int)
    requires Once(s, tr)
    ensures var t := Sweep(cfg, s, now, delay);
      Distinct(t.delivered) && 0 < |t.buckets| && forall d <- t.delivered :: Behind(t, tr, d)
  {
    var t, batch := Sweep(cfg, s, now, delay), Batch(cfg, s, now);
    SweepDelivers(cfg, s, now, delay);
    SweepOrders(cfg, s, now, delay);
    var more := Frames(s, batch);
    hide Sweep, Batch, Due, Frames, Receiver.TableOk, OpenedAs, Distinct;
    forall k | 0 <= k < |batch|
      ensures Behind(t, tr, more[k]) && more[k].order == batch[k] && forall d <- s.delivered :: d.order != batch[k]
    {
      DeliveredBehind(cfg, s, tr, now, delay, k);
    }
    forall d <- s.delivered ensures Behind(t, tr, d) { assert Behind(s, tr, d); }
    DistinctAppend(s.delivered, more, batch);
  }

  lemma DistinctAppend(a: seq<Delivered>, b: seq<Delivered>, orders: seq<int>)
    requires Distinct(a) && |b| == |orders| && StrictlyAscending(orders)
    requires forall k | 0 <= k < |b| :: b[k].order == orders[k] && forall d <- a :: d.order != orders[k]
    ensures Distinct(a + b)
  {
    var c := a + b;
    forall j, k | 0 <= j < k < |c| ensures c[j].order != c[k].order {
      if k >= |a| {
        assert c[k] == b[k - |a|];
        if j < |a| { assert c[j] in a; } else { assert c[j] == b[j - |a|]; }
      }
    }
  }

  /** A sweep changes no order and activates nothing. */
  lemma SweepOrders(cfg: Settings, s: Receiver, now: int, delay: int -> int)
    requires s.TableOk()
    ensures var t := Sweep(cfg, s, now, delay);
      && |t.buckets| == |s.buckets|
      && forall i | 0 <= i < |s.buckets| ::
           && t.buckets[i].order == s.buckets[i].order && (t.buckets[i].active ==> s.buckets[i].active)
           && (t.buckets[i].active ==> t.buckets[i].savedNo == s.buckets[i].savedNo)
  {
    var t := Sweep(cfg, s, now, delay);
    forall i | 0 <= i < |s.buckets|
      ensures |t.buckets| == |s.buckets| && t.buckets[i].order == s.buckets[i].order
      ensures t.buckets[i].active ==> s.buckets[i].active && t.buckets[i].savedNo == s.buckets[i].savedNo
    {
      SweepBucket(cfg, s, now, delay, i);
    }
    SweepBucket(cfg, s, now, delay, 0);
  }

  lemma BatchAt(cfg: Settings, s: Receiver, now: int, k: nat)
    requires s.TableOk() && k < |Batch(cfg, s, now)|
    ensures var o := Batch(cfg, s, now)[k];
      && o in s.table && s.table[o] < |s.buckets| && 0 < |s.buckets| && o % |s.buckets| == s.table[o]
      && var b := s.buckets[s.table[o]];
         && b.active && b.order == o && Due(cfg, b, now)
         && Frames(s, Batch(cfg, s, now))[k].order == o && Frames(s, Batch(cfg, s, now))[k].frameNo == b.savedNo
  {
    var o := Batch(cfg, s, now)[k];
    assert o in Batch(cfg, s, now);
    FramesAt(s, Batch(cfg, s, now), k);
    assert s.Pending(o) && s.Listed(s.table[o]);
    ModThroughRing(o, |s.buckets|);
    hide Batch, Due, Frames;
  }

  /** A frame just delivered leaves its bucket free under its own order, which no earlier frame had. */
  lemma DeliveredBehind(cfg: Settings, s: Receiver, tr: Track, now: int, delay: int -> int, k: nat)
    requires Once(s, tr) && k < |Batch(cfg, s, now)|
    ensures var t, d := Sweep(cfg, s, now, delay), Frames(s, Batch(cfg, s, now))[k];
      && |t.buckets| == |s.buckets| && Behind(t, tr, d) && d.order == Batch(cfg, s, now)[k]
    ensures forall d <- s.delivered :: d.order != Batch(cfg, s, now)[k]
  {
    var o := Batch(cfg, s, now)[k];
    BatchAt(cfg, s, now, k);
    var i := s.table[o];
    assert i in tr.used && OpenedAs(s, tr, i);
    SweepBucket(cfg, s, now, delay, i);
    hide Sweep, Batch, Due, Frames, Distinct, Receiver.TableOk, NumberSeen;
    forall d <- s.delivered ensures d.order != o { assert Behind(s, tr, d); }
    assert NumberSeen(tr, Frames(s, Batch(cfg, s, now))[k]) by {
      SeenNumber(s, tr, i, Frames(s, Batch(cfg, s, now))[k]);
    }
  }

  lemma SeenNumber(s: Receiver, tr: Track, i: nat, d: Delivered)
    requires i < |s.buckets| && OpenedAs(s, tr, i) && s.buckets[i].active
    requires d.order == s.buckets[i].order && d.frameNo == s.buckets[i].savedNo
    ensures NumberSeen(tr, d)
  {
  }

  // ----- whole runs -----

  function NumberedRun(cfg: Settings, s: Receiver, events: seq<NumberedEvent>): (t: Receiver)
    requires s.TableOk()
    ensures t.TableOk()
    decreases |events|
  {
    if events == [] then s else NumberedRun(cfg, Next(cfg, s, events[0]), events[1..])
  }

  predicate NearRun(cfg: Settings, s: Receiver, tr: Track, events: seq<NumberedEvent>)
    requires s.TableOk()
    decreases |events|
  {
    events == [] ||
    (Near(s, tr, events[0]) && NearRun(cfg, Next(cfg, s, events[0]), NextTrack(cfg, s, tr, events[0]), events[1..]))
  }

  function LastTrack(cfg: Settings, s: Receiver, tr: Track, events: seq<NumberedEvent>): Track
    requires s.TableOk()
    decreases |events|
  {
    if events == [] then tr
    else LastTrack(cfg, Next(cfg, s, events[0]), NextTrack(cfg, s, tr, events[0]), events[1..])
  }

  /** The true numbers of all packets that arrive. */
  function NumbersOf(events: seq<NumberedEvent>): set<int> {
    if events == [] then {} else (if events[0].Incoming? then {events[0].number} else {}) + NumbersOf(events[1..])
  }

  lemma NextKeepsOnce(cfg: Settings, s: Receiver, tr: Track, e: NumberedEvent)
    requires Once(s, tr) && Near(s, tr, e)
    ensures Once(Next(cfg, s, e), NextTrack(cfg, s, tr, e))
    ensures NextTrack(cfg, s, tr, e).seen <= tr.seen + NumbersOf([e])
  {
    assert NumbersOf([e]) == if e.Incoming? then {e.number} else {};
    hide Near, OpenedAs, Behind, Distinct, Unwraps, Receiver.Listed, Receiver.Pending;
    if e.Incoming? {
      if Unwraps(s, e.p) { OpenKeepsOnce(cfg, s, tr, e); }
      else { AcceptKeepsOnce(cfg, s, tr, e); }
    } else {
      SweepKeepsOnce(cfg, s, tr, e.now, e.delay);
    }
  }

  lemma {:induction false} RunKeepsOnce(cfg: Settings, s: Receiver, tr: Track, events: seq<NumberedEvent>)
    requires Once(s, tr) && NearRun(cfg, s, tr, events)
    ensures Once(NumberedRun(cfg, s, events), LastTrack(cfg, s, tr, events))
    ensures LastTrack(cfg, s, tr, events).seen <= tr.seen + NumbersOf(events)
    decreases |events|
  {
    hide Near, Once, Next, NextTrack;
    assert Once(s, tr) ==> s.TableOk() by { OnceTable(s, tr); }
    if events != [] {
      var e := events[0];
      NextKeepsOnce(cfg, s, tr, e);
      RunKeepsOnce(cfg, Next(cfg, s, e), NextTrack(cfg, s, tr, e), events[1..]);
      assert NumbersOf([e]) == if e.Incoming? then {e.number} else {};
    }
  }

  lemma OnceTable(s: Receiver, tr: Track)
    requires Once(s, tr)
    ensures s.TableOk()
  {
  }

  /** Every frame is that of one of the numbers, namely its order without the offset, whose low bits are its
      frame number; and no two are of the same number. */
  predicate OncePerNumber(d: seq<Delivered>, offset: int, numbers: set<int>) {
    && (forall k | 0 <= k < |d| :: d[k].order - offset in numbers && (d[k].order - offset) % 0x1_0000 == d[k].frameNo)
    && (forall j, k | 0 <= j < k < |d| :: d[j].order - offset != d[k].order - offset)
  }

  /** At most once. Packets that reach a free bucket move by less than 2^15 and are less than a ring behind
      the newest. Then no run from a fresh receiver delivers a superframe twice. */
  lemma AtMostOnce(cfg: Settings, n: nat, tr: Track, events: seq<NumberedEvent>) returns (offset: int)
    requires 0 < n && 0x1_0000 % n == 0 && tr.used == {} && tr.seen == {}
    requires Initial(n).TableOk() && NearRun(cfg, Initial(n), tr, events)
    ensures OncePerNumber(NumberedRun(cfg, Initial(n), events).delivered, offset, NumbersOf(events))
  {
    FreshOnce(n, tr);
    hide Initial, Once, Receiver.TableOk, OncePerNumber, NumberedRun, NearRun;
    RunKeepsOnce(cfg, Initial(n), tr, events);
    var u := LastTrack(cfg, Initial(n), tr, events);
    offset := u.offset;
    OnceNumbers(NumberedRun(cfg, Initial(n), events), u, NumbersOf(events));
  }

  lemma FreshOnce(n: nat, tr: Track)
    requires 0 < n && Initial(n).TableOk() && tr.used == {}
    ensures Once(Initial(n), tr)
  {
  }

  lemma OnceNumbers(s: Receiver, tr: Track, numbers: set<int>)
    requires Once(s, tr) && tr.seen <= numbers
    ensures OncePerNumber(s.delivered, tr.offset, numbers)
  {
    hide Receiver.BucketsOk, Receiver.Pending, Receiver.Listed, OpenedAs;
    forall k | 0 <= k < |s.delivered| ensures NumberSeen(tr, s.delivered[k]) { assert Behind(s, tr, s.delivered[k]); }
  }
}
