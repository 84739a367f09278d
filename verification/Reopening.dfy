/** Exactly when a superframe comes out twice: a packet that comes after its frame was delivered opens the slot
    again if and only if another number has taken that slot in between. */
module Reopening {
  import opened Wire
  import opened Fragmenter
  import opened FrameMemory
  import opened NackRanges
  import opened Ordering
  import opened Results
  import opened ReceiverSpec
  import opened ReceiverRuns
  import Sequence
  import Unrolling

  // ----- who took which slot -----

  /** A packet of this true number has taken its slot, and a frame was opened in it unless its size was zero. */
  datatype Take = Take(number: int, opens: bool)

  /** A Type1 packet of a frame beyond the size limit, which takes no slot. */
  predicate Refused(p: Packet) { p.Type1? && AllocSize(p) > MAX_SUPERFRAME_SIZE }

  /** What the event takes: its order differs from the one its free slot had last. */
  function Taken(s: Receiver, e: Sequence.NumberedEvent): (h: seq<Take>)
    requires s.Sized()
    ensures |h| <= 1
  {
    if e.SweepAt? || !Sequence.Unwraps(s, e.p) then []
    else if NextOrder(s, e.p.frameNo) == s.buckets[s.Index(e.p.frameNo)].order || Refused(e.p) then []
    else [Take(e.number, AllocSize(e.p) != 0)]
  }

  /** All that is taken over a run, in the order of time. */
  function History(cfg: Settings, s: Receiver, events: seq<Sequence.NumberedEvent>): seq<Take>
    requires s.TableOk()
    decreases |events|
  {
    if events == [] then []
    else Taken(s, events[0]) + History(cfg, Sequence.Next(cfg, s, events[0]), events[1..])
  }

  predicate Opened(h: seq<Take>, number: int) { Take(number, true) in h }

  /** Some packet has taken the ring slot of this number. */
  predicate InSlot(h: seq<Take>, n: nat, number: int)
    requires 0 < n
  {
    h != [] && (h[|h| - 1].number % n == number % n || InSlot(h[..|h| - 1], n, number))
  }

  /** The last to take the ring slot of this number was a packet of this number. */
  predicate LastIs(h: seq<Take>, n: nat, number: int)
    requires 0 < n
  {
    h != [] &&
    if h[|h| - 1].number % n == number % n then h[|h| - 1].number == number else LastIs(h[..|h| - 1], n, number)
  }

  /** No number was opened twice. */
  predicate NoneTwice(h: seq<Take>) {
    forall j, k | 0 <= j < k < |h| && h[j].opens && h[k].opens :: h[j].number != h[k].number
  }

  // ----- the conditions -----

  /** A packet that reaches a free bucket has the low bits of its true number, which is less than 2^15 away
      from the number unwrapped last. */
  predicate Jumps(s: Receiver, last: int, e: Sequence.NumberedEvent)
    requires s.Sized()
  {
    e.Incoming? && Sequence.Unwraps(s, e.p) ==>
      e.p.frameNo == e.number % 0x1_0000 && (!s.firstFrame ==> -0x8000 <= e.number - last < 0x8000)
  }

  function NextLast(s: Receiver, last: int, e: Sequence.NumberedEvent): int
    requires s.Sized()
  {
    if e.Incoming? && Sequence.Unwraps(s, e.p) then e.number else last
  }

  predicate JumpRun(cfg: Settings, s: Receiver, last: int, events: seq<Sequence.NumberedEvent>)
    requires s.TableOk()
    decreases |events|
  {
    events == [] ||
    (Jumps(s, last, events[0])
     && JumpRun(cfg, Sequence.Next(cfg, s, events[0]), NextLast(s, last, events[0]), events[1..]))
  }

  /** If the packet reaches a free bucket, could open it, and its number was opened before, then nothing else
      has taken the slot since. */
  predicate Undisturbed(s: Receiver, h: seq<Take>, e: Sequence.NumberedEvent)
    requires s.Sized()
  {
    e.Incoming? && Sequence.Unwraps(s, e.p) && Opened(h, e.number) ==>
      Refused(e.p) || AllocSize(e.p) == 0 || LastIs(h, |s.buckets|, e.number)
  }

  predicate UndisturbedRun(cfg: Settings, s: Receiver, h: seq<Take>, events: seq<Sequence.NumberedEvent>)
    requires s.TableOk()
    decreases |events|
  {
    events == [] ||
    (Undisturbed(s, h, events[0])
     && UndisturbedRun(cfg, Sequence.Next(cfg, s, events[0]), h + Taken(s, events[0]), events[1..]))
  }

  // ----- what the receiver remembers -----

  /** The bucket of the number's slot remembers the last taker. */
  predicate SlotAgrees(s: Receiver, h: seq<Take>, offset: int, number: int)
    requires 0 < |s.buckets|
  {
    InSlot(h, |s.buckets|, number) ==>
      (LastIs(h, |s.buckets|, number) <==> s.buckets[number % |s.buckets|].order == number + offset)
  }

  ghost predicate Remembers(s: Receiver, h: seq<Take>, offset: int, last: int) {
    && s.TableOk() && offset % 0x1_0000 == 0
    && (if s.firstFrame then h == [] else s.recalc == last + offset && s.oldNo == last % 0x1_0000)
    && forall number :: SlotAgrees(s, h, offset, number)
  }

  /** The offset is fixed by the first packet that is unwrapped. */
  function OffsetAfter(s: Receiver, offset: int, e: Sequence.NumberedEvent): int
    requires s.Sized()
  {
    if s.firstFrame && e.Incoming? && Sequence.Unwraps(s, e.p) then e.p.frameNo - e.number else offset
  }

  lemma OffsetRemainder(number: int, no: Word16)
    requires no == number % 0x1_0000
    ensures (no - number) % 0x1_0000 == 0
  {
    assert number == 0x1_0000 * (number / 0x1_0000) + no;
  }

  /** Its order is its true number with the offset, and its slot is that of the number. */
  lemma OrderOfNumber(s: Receiver, h: seq<Take>, offset: int, last: int, e: Sequence.NumberedEvent)
    requires Remembers(s, h, offset, last) && e.Incoming? && Jumps(s, last, e) && Sequence.Unwraps(s, e.p)
    ensures var next := OffsetAfter(s, offset, e);
      && NextOrder(s, e.p.frameNo) == e.number + next && next % 0x1_0000 == 0
      && s.Index(e.p.frameNo) == e.number % |s.buckets| && (h != [] ==> next == offset)
  {
    OffsetRemainder(e.number, e.p.frameNo);
    ModThroughRing(e.number, |s.buckets|);
    if !s.firstFrame { Sequence.DeltaTracks(last, e.number); }
    hide Delta16, HeaderError, Receiver.BucketsOk, Receiver.Pending, Receiver.Listed;
  }

  /** What an arrival at a free bucket does: it takes the slot, or leaves all buckets and the table as they are. */
  lemma OpenExactly(cfg: Settings, s: Receiver, e: Sequence.NumberedEvent)
    requires s.TableOk() && e.Incoming? && Sequence.Unwraps(s, e.p)
    ensures var t := Handle(cfg, s, e.p, e.source, e.now).0;
      var i, o, taken := s.Index(e.p.frameNo), NextOrder(s, e.p.frameNo), Taken(s, e);
      && |t.buckets| == |s.buckets| && !t.firstFrame && t.recalc == o && t.oldNo == e.p.frameNo
      && t.delivered == s.delivered && o !in s.table
      && (forall k | 0 <= k < |s.buckets| && k != i :: t.buckets[k] == s.buckets[k])
      && (taken == [] ==> t.buckets == s.buckets) && (taken != [] ==> t.buckets[i].order == o)
      && t.table.Keys == s.table.Keys + (if taken != [] && taken[0].opens then {o} else {})
  {
    hide HeaderError, AllocSize, Open, OpenMeta, NextOrder, Receiver.Listed, Receiver.Pending, Assembly.Ok,
         Receiver.BucketsOk;
    OrderFresh(s, e.p.frameNo);
    HeaderOkInBounds(e.p);
    assert s.table - {NextOrder(s, e.p.frameNo)} == s.table;
  }

  /** Both sides change at the taken slot alone. */
  lemma TakeAgrees(s: Receiver, t: Receiver, h: seq<Take>, x: Take, offset: int, next: int, number: int)
    requires 0 < |s.buckets| == |t.buckets| && SlotAgrees(s, h, offset, number) && (h != [] ==> next == offset)
    requires forall k | 0 <= k < |s.buckets| && k != x.number % |s.buckets| :: t.buckets[k] == s.buckets[k]
    requires t.buckets[x.number % |s.buckets|].order == x.number + next
    ensures SlotAgrees(t, h + [x], next, number)
  {
    var n, more := |s.buckets|, h + [x];
    assert more[..|more| - 1] == h;
    if x.number % n != number % n { assert h == [] ==> !InSlot(more, n, number); }
  }

  lemma SameAgrees(s: Receiver, t: Receiver, h: seq<Take>, offset: int, next: int, number: int)
    requires 0 < |s.buckets| == |t.buckets| && SlotAgrees(s, h, offset, number) && (h != [] ==> next == offset)
    requires t.buckets[number % |s.buckets|].order == s.buckets[number % |s.buckets|].order
    ensures SlotAgrees(t, h, next, number)
  {
  }

  lemma ArrivalRemembers(cfg: Settings, s: Receiver, h: seq<Take>, offset: int, last: int, e: Sequence.NumberedEvent)
    requires Remembers(s, h, offset, last) && e.Incoming? && Jumps(s, last, e) && Sequence.Unwraps(s, e.p)
    ensures Remembers(Sequence.Next(cfg, s, e), h + Taken(s, e), OffsetAfter(s, offset, e), NextLast(s, last, e))
  {
    var t, taken, next := Sequence.Next(cfg, s, e), Taken(s, e), OffsetAfter(s, offset, e);
    OrderOfNumber(s, h, offset, last, e);
    OpenExactly(cfg, s, e);
    TableIsSized(s);
    assert Sequence.Next(cfg, s, e) == Handle(cfg, s, e.p, e.source, e.now).0;
    assert taken == [] || taken == [Take(e.number, taken[0].opens)];
    hide Handle, Taken, SlotAgrees, NextOrder, Receiver.TableOk, Sequence.Next, Sequence.Unwraps, OffsetAfter;
    assert h + [] == h;
    forall number ensures SlotAgrees(t, h + taken, next, number) {
      assert SlotAgrees(s, h, offset, number);
      if taken == [] { SameAgrees(s, t, h, offset, next, number); }
      else { TakeAgrees(s, t, h, taken[0], offset, next, number); }
    }
  }

  lemma OtherRemembers(cfg: Settings, s: Receiver, h: seq<Take>, offset: int, last: int, e: Sequence.NumberedEvent)
    requires Remembers(s, h, offset, last) && (e.Incoming? ==> !Sequence.Unwraps(s, e.p))
    ensures Remembers(Sequence.Next(cfg, s, e), h, offset, last)
  {
    var t := Sequence.Next(cfg, s, e);
    if e.Incoming? { Sequence.AcceptEffect(cfg, s, e.p, e.source, e.now); }
    else {
      Sequence.SweepOrders(cfg, s, e.now, e.delay);
      SweepSequence(cfg, s, e.now, e.delay);
    }
    TableIsSized(s);
    hide Handle, SlotAgrees, Receiver.TableOk, Sequence.Unwraps, Sweep;
    forall number ensures SlotAgrees(t, h, offset, number) {
      assert SlotAgrees(s, h, offset, number);
      SameAgrees(s, t, h, offset, offset, number);
    }
  }

  /** The slot is undisturbed exactly if the arrival opens no number for the second time. */
  lemma UndisturbedExactly(s: Receiver, h: seq<Take>, offset: int, last: int, e: Sequence.NumberedEvent)
    requires Remembers(s, h, offset, last) && Jumps(s, last, e)
    ensures NoneTwice(h) ==> (Undisturbed(s, h, e) <==> NoneTwice(h + Taken(s, e)))
  {
    hide Receiver.BucketsOk, Receiver.Pending, Receiver.Listed, NextOrder, HeaderError, AllocSize, LastIs, InSlot;
    var taken := Taken(s, e);
    assert h + [] == h;
    if e.Incoming? && Sequence.Unwraps(s, e.p) {
      OrderOfNumber(s, h, offset, last, e);
      assert SlotAgrees(s, h, offset, e.number);
      if Opened(h, e.number) { OpenedInSlot(h, |s.buckets|, e.number); }
      if taken != [] { TwiceAppended(h, taken[0]); }
    }
  }

  lemma {:induction false} OpenedInSlot(h: seq<Take>, n: nat, number: int)
    requires 0 < n && Opened(h, number)
    ensures InSlot(h, n, number)
  {
    if h[|h| - 1] != Take(number, true) {
      assert h == h[..|h| - 1] + [h[|h| - 1]];
      OpenedInSlot(h[..|h| - 1], n, number);
    }
  }

  lemma TwiceAppended(h: seq<Take>, x: Take)
    ensures NoneTwice(h + [x]) <==> NoneTwice(h) && (x.opens ==> !Opened(h, x.number))
  {
    var more := h + [x];
    assert forall k | 0 <= k < |h| :: more[k] == h[k];
    if NoneTwice(more) && x.opens {
      forall k | 0 <= k < |h| && h[k].opens ensures h[k].number != x.number { assert more[|h|] == x; }
    }
  }

  // ----- what comes out -----

  function Orders(d: seq<Delivered>): (o: seq<int>)
    ensures |o| == |d| && forall k | 0 <= k < |d| :: o[k] == d[k].order
  {
    seq(|d|, k requires 0 <= k < |d| => d[k].order)
  }

  /** The orders that the openings have given. */
  function OpenedOrders(h: seq<Take>, offset: int): seq<int> {
    if h == [] then []
    else OpenedOrders(h[..|h| - 1], offset) + (if h[|h| - 1].opens then [h[|h| - 1].number + offset] else [])
  }

  /** Every opening has come out once or is pending, and nothing else has come out. */
  ghost predicate Accounted(s: Receiver, h: seq<Take>, offset: int) {
    multiset(Orders(s.delivered)) + multiset(s.table.Keys) == multiset(OpenedOrders(h, offset))
  }

  lemma {:induction false} OpenedOrdersJoin(h: seq<Take>, x: seq<Take>, offset: int)
    requires |x| <= 1
    ensures OpenedOrders(h + x, offset)
         == OpenedOrders(h, offset) + (if x != [] && x[0].opens then [x[0].number + offset] else [])
  {
    if x == [] { assert h + x == h; } else { assert (h + x)[..|h + x| - 1] == h; }
  }

  lemma ArrivalAccounts(cfg: Settings, s: Receiver, h: seq<Take>, offset: int, last: int, e: Sequence.NumberedEvent)
    requires s.TableOk() && Remembers(s, h, offset, last) && Accounted(s, h, offset) && e.Incoming? && Jumps(s, last, e)
    requires Sequence.Unwraps(s, e.p)
    ensures Accounted(Sequence.Next(cfg, s, e), h + Taken(s, e), OffsetAfter(s, offset, e))
  {
    hide Remembers, Handle, NextOrder, Receiver.BucketsOk, Receiver.Pending, Receiver.Listed, Sequence.Unwraps,
         OffsetAfter, OpenedOrders, Orders, Jumps, Taken;
    var t, taken, next := Sequence.Next(cfg, s, e), Taken(s, e), OffsetAfter(s, offset, e);
    OrderOfNumber(s, h, offset, last, e);
    TakenIs(s, e);
    ArrivalTable(cfg, s, e);
    hide Sequence.Next, Accounted;
    AccountsGrow(s, t, h, taken, offset, next, NextOrder(s, e.p.frameNo));
  }

  lemma AccountsGrow(s: Receiver, t: Receiver, h: seq<Take>, taken: seq<Take>, offset: int, next: int, o: int)
    requires Accounted(s, h, offset) && |taken| <= 1 && (h != [] ==> next == offset)
    requires taken != [] ==> o == taken[0].number + next
    requires t.delivered == s.delivered && o !in s.table
    requires t.table.Keys == s.table.Keys + (if taken != [] && taken[0].opens then {o} else {})
    ensures Accounted(t, h + taken, next)
  {
    hide OpenedOrders, Orders;
    OpenedOrdersJoin(h, taken, next);
    SameOpened(h, next, offset);
    var before, adds := OpenedOrders(h, offset), taken != [] && taken[0].opens;
    OneMore(Orders(s.delivered), s.table.Keys, t.table.Keys, before, o, adds);
    assert OpenedOrders(h + taken, next) == before + if adds then [o] else [];
  }

  lemma ArrivalTable(cfg: Settings, s: Receiver, e: Sequence.NumberedEvent)
    requires s.TableOk() && e.Incoming? && Sequence.Unwraps(s, e.p)
    ensures var t, taken, o := Sequence.Next(cfg, s, e), Taken(s, e), NextOrder(s, e.p.frameNo);
      && t.delivered == s.delivered && o !in s.table
      && t.table.Keys == s.table.Keys + (if taken != [] && taken[0].opens then {o} else {})
  {
    hide Handle, NextOrder, Receiver.BucketsOk, Receiver.Pending, Receiver.Listed, Sequence.Unwraps, Taken;
    OpenExactly(cfg, s, e);
  }

  lemma TakenIs(s: Receiver, e: Sequence.NumberedEvent)
    requires s.Sized() && e.Incoming?
    ensures Taken(s, e) == [] || Taken(s, e) == [Take(e.number, Taken(s, e)[0].opens)]
  {
  }

  lemma SameOpened(h: seq<Take>, next: int, offset: int)
    requires h != [] ==> next == offset
    ensures OpenedOrders(h, next) == OpenedOrders(h, offset)
  {
  }

  lemma OneMore(d: seq<int>, keys: set<int>, grown: set<int>, given: seq<int>, o: int, adds: bool)
    requires multiset(d) + multiset(keys) == multiset(given) && o !in keys
    requires grown == keys + if adds then {o} else {}
    ensures multiset(d) + multiset(grown) == multiset(given + if adds then [o] else [])
  {
    if adds { assert multiset(grown) == multiset(keys) + multiset{o}; }
    else { assert grown == keys && given + [] == given; }
  }

  lemma OtherAccounts(cfg: Settings, s: Receiver, h: seq<Take>, offset: int, e: Sequence.NumberedEvent)
    requires s.TableOk() && Accounted(s, h, offset) && (e.Incoming? ==> !Sequence.Unwraps(s, e.p))
    ensures Accounted(Sequence.Next(cfg, s, e), h, offset)
  {
    if e.Incoming? {
      hide Handle, OpenedOrders, Receiver.TableOk;
      SameTable(cfg, s, e.p, e.source, e.now);
    } else {
      SweepAccounts(cfg, s, h, offset, e.now, e.delay);
    }
  }

  lemma SweepAccounts(cfg: Settings, s: Receiver, h: seq<Take>, offset: int, now: int, delay: int -> int)
    requires s.TableOk() && Accounted(s, h, offset)
    ensures Accounted(Sweep(cfg, s, now, delay), h, offset)
  {
    hide Sweep, Batch, Receiver.TableOk, Frames, OpenedOrders, Orders;
    var batch := Batch(cfg, s, now);
    SweepDelivers(cfg, s, now, delay);
    FrameOrders(s, batch);
    OrdersJoin(s.delivered, Frames(s, batch));
    MoveOut(Orders(s.delivered), s.table.Keys, batch, OpenedOrders(h, offset));
    assert (s.table - set o <- batch).Keys == s.table.Keys - (set o <- batch);
  }

  lemma MoveOut(d: seq<int>, keys: set<int>, batch: seq<int>, given: seq<int>)
    requires multiset(d) + multiset(keys) == multiset(given)
    requires StrictlyAscending(batch) && forall o <- batch :: o in keys
    ensures multiset(d + batch) + multiset(keys - (set o <- batch)) == multiset(given)
  {
    hide StrictlyAscending;
    KeysSplit(keys, batch);
  }

  lemma SameTable(cfg: Settings, s: Receiver, p: Packet, source: Byte, now: int)
    requires s.TableOk() && !Sequence.Unwraps(s, p)
    ensures Handle(cfg, s, p, source, now).0.table == s.table
      && Handle(cfg, s, p, source, now).0.delivered == s.delivered
  {
    hide HeaderError, BucketError, Accept, Placeable, Receiver.Pending, Receiver.Listed, Assembly.Ok, OpenStep;
  }

  lemma OrdersJoin(a: seq<Delivered>, b: seq<Delivered>)
    ensures Orders(a + b) == Orders(a) + Orders(b)
  {
  }

  lemma FrameOrders(s: Receiver, orders: seq<int>)
    requires s.TableOk() && forall o <- orders :: o in s.table
    ensures Orders(Frames(s, orders)) == orders
  {
    forall k | 0 <= k < |orders| ensures Frames(s, orders)[k].order == orders[k] { FramesAt(s, orders, k); }
  }

  /** A set is the distinct members taken out of it and the rest. */
  lemma {:induction false} KeysSplit(keys: set<int>, batch: seq<int>)
    requires StrictlyAscending(batch) && forall o <- batch :: o in keys
    ensures multiset(keys) == multiset(keys - (set o <- batch)) + multiset(batch)
  {
    if batch == [] {
      assert keys - (set o <- batch) == keys;
    } else {
      var x, rest := batch[0], batch[1..];
      assert batch == [x] + rest && x !in rest;
      KeysSplit(keys, rest);
      WithOne(keys - (set o <- batch), x);
      assert keys - (set o <- rest) == keys - (set o <- batch) + {x};
    }
  }

  lemma WithOne(keys: set<int>, x: int)
    requires x !in keys
    ensures multiset(keys + {x}) == multiset(keys) + multiset{x}
  {
  }

  // ----- over whole runs -----

  function LastOffset(cfg: Settings, s: Receiver, offset: int, events: seq<Sequence.NumberedEvent>): int
    requires s.TableOk()
    decreases |events|
  {
    if events == [] then offset
    else LastOffset(cfg, Sequence.Next(cfg, s, events[0]), OffsetAfter(s, offset, events[0]), events[1..])
  }

  lemma EventRemembers(cfg: Settings, s: Receiver, h: seq<Take>, offset: int, last: int, e: Sequence.NumberedEvent)
    requires Remembers(s, h, offset, last) && Accounted(s, h, offset) && Jumps(s, last, e)
    ensures var t, more, next := Sequence.Next(cfg, s, e), h + Taken(s, e), OffsetAfter(s, offset, e);
      Remembers(t, more, next, NextLast(s, last, e)) && Accounted(t, more, next)
    ensures NoneTwice(h + Taken(s, e)) <==> NoneTwice(h) && Undisturbed(s, h, e)
  {
    UndisturbedExactly(s, h, offset, last, e);
    if !NoneTwice(h) { StaysTwice(h, Taken(s, e)); }
    if e.Incoming? && Sequence.Unwraps(s, e.p) {
      ArrivalRemembers(cfg, s, h, offset, last, e);
      ArrivalAccounts(cfg, s, h, offset, last, e);
    } else {
      OtherRemembers(cfg, s, h, offset, last, e);
      OtherAccounts(cfg, s, h, offset, e);
      assert h + [] == h;
    }
    hide Remembers, Accounted, Sequence.Next, Receiver.BucketsOk, Receiver.Pending, Receiver.Listed, NoneTwice,
         Undisturbed;
  }

  lemma StaysTwice(h: seq<Take>, more: seq<Take>)
    requires !NoneTwice(h)
    ensures !NoneTwice(h + more)
  {
    var j, k :| 0 <= j < k < |h| && h[j].opens && h[k].opens && h[j].number == h[k].number;
    assert (h + more)[j] == h[j] && (h + more)[k] == h[k];
  }

  lemma {:induction false} RunRemembers(cfg: Settings, s: Receiver, h: seq<Take>, offset: int, last: int,
                                        events: seq<Sequence.NumberedEvent>)
    requires Remembers(s, h, offset, last) && Accounted(s, h, offset) && s.TableOk() && JumpRun(cfg, s, last, events)
    ensures Accounted(Sequence.NumberedRun(cfg, s, events), h + History(cfg, s, events),
                      LastOffset(cfg, s, offset, events))
    ensures NoneTwice(h + History(cfg, s, events)) <==> NoneTwice(h) && UndisturbedRun(cfg, s, h, events)
    decreases |events|
  {
    hide Remembers, Accounted, NoneTwice, Undisturbed, Taken, Sequence.Next, Receiver.TableOk, Jumps, OffsetAfter,
         NextLast;
    if events == [] {
      assert h + [] == h;
    } else {
      var e := events[0];
      TableIsSized(s);
      EventRemembers(cfg, s, h, offset, last, e);
      var t := Sequence.Next(cfg, s, e);
      RunRemembers(cfg, t, h + Taken(s, e), OffsetAfter(s, offset, e), NextLast(s, last, e), events[1..]);
      Associative(h, Taken(s, e), History(cfg, t, events[1..]));
    }
  }

  lemma FreshRemembers(n: nat, last: int)
    requires 0 < n && 0x1_0000 % n == 0
    ensures Remembers(Initial(n), [], 0, last) && Accounted(Initial(n), [], 0)
  {
  }

  /** Exactly once. Packets that reach a free bucket move by less than 2^15; no window is asked for. Over every
      run from a new receiver each opening comes out once under its true number or is pending, and nothing
      else comes out. No number is opened twice if and only if each packet of a number opened before, if it
      reaches its slot free and could open it, finds that no other number has taken the slot since. */
  lemma OpenedTwiceExactly(cfg: Settings, n: nat, last: int, events: seq<Sequence.NumberedEvent>) returns (offset: int)
    requires 0 < n && 0x1_0000 % n == 0 && Initial(n).TableOk() && JumpRun(cfg, Initial(n), last, events)
    ensures var u, h := Sequence.NumberedRun(cfg, Initial(n), events), History(cfg, Initial(n), events);
      && Accounted(u, h, offset)
      && (NoneTwice(h) <==> UndisturbedRun(cfg, Initial(n), [], events))
  {
    FreshRemembers(n, last);
    hide Remembers, Accounted, Sequence.NumberedRun, History, UndisturbedRun, JumpRun, Initial, Receiver.TableOk,
         LastOffset;
    RunRemembers(cfg, Initial(n), [], 0, last, events);
    offset := LastOffset(cfg, Initial(n), 0, events);
    assert [] + History(cfg, Initial(n), events) == History(cfg, Initial(n), events);
    assert NoneTwice([]);
  }

  /** Nothing occurs twice. */
  predicate Unrepeated(a: seq<int>) { forall o <- a :: multiset(a)[o] == 1 }

  lemma {:induction false} OpenedOrdersIn(h: seq<Take>, offset: int, number: int)
    ensures number + offset in OpenedOrders(h, offset) <==> Opened(h, number)
  {
    if h != [] {
      var n := |h| - 1;
      OpenedOrdersIn(h[..n], offset, number);
      assert h == h[..n] + [h[n]];
    }
  }

  lemma {:induction false} TwiceByOrders(h: seq<Take>, offset: int)
    ensures NoneTwice(h) <==> Unrepeated(OpenedOrders(h, offset))
  {
    hide Unrepeated, NoneTwice, OpenedOrders;
    if h == [] {
      NothingTwice(offset);
    } else {
      var most, x := h[..|h| - 1], h[|h| - 1];
      TwiceByOrders(most, offset);
      TwiceByStep(most, x, offset);
      assert h == most + [x];
    }
  }

  lemma NothingTwice(offset: int)
    ensures NoneTwice([]) && Unrepeated(OpenedOrders([], offset))
  {
  }

  lemma TwiceByStep(h: seq<Take>, x: Take, offset: int)
    requires NoneTwice(h) <==> Unrepeated(OpenedOrders(h, offset))
    ensures NoneTwice(h + [x]) <==> Unrepeated(OpenedOrders(h + [x], offset))
  {
    hide Unrepeated, NoneTwice, Opened, OpenedOrders;
    TwiceAppended(h, x);
    OpenedOrdersIn(h, offset, x.number);
    OpenedOrdersJoin(h, [x], offset);
    var before := OpenedOrders(h, offset);
    if x.opens { OnceMore(before, x.number + offset); } else { assert before + [] == before; }
  }

  /** A sequence stays free of repetitions exactly if what is appended is not in it. */
  lemma OnceMore(a: seq<int>, x: int)
    ensures Unrepeated(a + [x]) <==> Unrepeated(a) && x !in a
  {
    var b := a + [x];
    assert multiset(b) == multiset(a) + multiset{x};
    assert b[|a|] == x && forall o <- a :: o in b;
    if x in a { assert multiset(a)[x] > 0 && multiset(b)[x] > 1; }
  }

  lemma DistinctByOrders(d: seq<Delivered>)
    ensures Sequence.Distinct(d) <==> Unrepeated(Orders(d))
    decreases |d|
  {
    if d != [] {
      var n := |d| - 1;
      var a, x := Orders(d[..n]), d[n].order;
      DistinctByOrders(d[..n]);
      assert Orders(d) == a + [x];
      OnceMore(a, x);
      assert x in a <==> exists j | 0 <= j < n :: d[j].order == x by {
        assert forall j | 0 <= j < n :: a[j] == d[j].order;
      }
    }
  }

  /** So when nothing is pending, two frames have come out under one number exactly if a packet found its slot
      taken by another number after its own frame was opened. */
  lemma DeliveredTwiceExactly(cfg: Settings, n: nat, last: int, events: seq<Sequence.NumberedEvent>)
    requires 0 < n && 0x1_0000 % n == 0 && Initial(n).TableOk() && JumpRun(cfg, Initial(n), last, events)
    requires Sequence.NumberedRun(cfg, Initial(n), events).table == map[]
    ensures Sequence.Distinct(Sequence.NumberedRun(cfg, Initial(n), events).delivered)
       <==> UndisturbedRun(cfg, Initial(n), [], events)
  {
    hide Sequence.NumberedRun, History, UndisturbedRun, JumpRun, Initial, Receiver.TableOk, NoneTwice, OpenedOrders,
         Orders, Sequence.Distinct;
    var offset := OpenedTwiceExactly(cfg, n, last, events);
    var u, h := Sequence.NumberedRun(cfg, Initial(n), events), History(cfg, Initial(n), events);
    TwiceByOrders(h, offset);
    DistinctByOrders(u.delivered);
    assert u.table.Keys == {};
    assert multiset(Orders(u.delivered)) == multiset(OpenedOrders(h, offset));
    SameMembers(Orders(u.delivered), OpenedOrders(h, offset));
  }

  lemma SameMembers(a: seq<int>, b: seq<int>)
    requires multiset(a) == multiset(b)
    ensures Unrepeated(a) <==> Unrepeated(b)
  {
    assert forall o :: o in a <==> o in multiset(a);
    assert forall o :: o in b <==> o in multiset(b);
  }

  /** The same for runs on bytes, in either mode. */
  lemma BytesTwiceExactly(cfg: Settings, n: nat, last: int, events: seq<ReceiverRuns.Event>,
                          plain: seq<Sequence.NumberedEvent>)
    requires 0 < n && 0x1_0000 % n == 0 && Initial(n).TableOk() && JumpRun(cfg, Initial(n), last, plain)
    requires Unrolling.Unrolls(cfg, Initial(n), events, plain) && Run(cfg, Initial(n), events).table == map[]
    ensures Sequence.Distinct(Run(cfg, Initial(n), events).delivered) <==> UndisturbedRun(cfg, Initial(n), [], plain)
  {
    hide Sequence.NumberedRun, Run, UndisturbedRun, JumpRun, Initial, Receiver.TableOk, Sequence.Distinct,
         Unrolling.Unrolls;
    Unrolling.RunUnrolls(cfg, Initial(n), events, plain);
    DeliveredTwiceExactly(cfg, n, last, plain);
  }
}
