/** What every run of the receiver keeps: the table of pending buckets, and the accounting of frames. */
module ReceiverRuns {
  import opened Wire
  import opened Fragmenter
  import opened FrameMemory
  import opened NackRanges
  import opened Ordering
  import opened Results
  import opened ReceiverSpec

  // ----- opening a bucket -----

  lemma ModThroughRing(x: int, n: nat)
    requires 0 < n && 0x1_0000 % n == 0
    ensures (x % 0x1_0000) % n == x % n
  {
    var k := 0x1_0000 / n;
    var q, r := x / 0x1_0000, x % 0x1_0000;
    assert 0x1_0000 == n * k by { DivMod(0x1_0000, n); }
    assert x == 0x1_0000 * q + r;
    assert x - r == n * (k * q) by { Assoc(n, k, q); }
    SameRemainder(x, r, n, k * q);
  }

  lemma Assoc(n: int, k: int, q: int)
    ensures (n * k) * q == n * (k * q)
  {
  }

  lemma SameRemainder(x: int, r: int, n: nat, m: int)
    requires 0 < n && x - r == n * m
    ensures x % n == r % n
  {
    var a, b := x % n, r % n;
    var c := x / n - r / n - m;
    assert x == n * (x / n) + a && r == n * (r / n) + b;
    assert n * c == n * (x / n) - n * (r / n) - n * m;
    assert b - a == n * c;
    MulFar(n, c);
  }

  lemma MulFar(n: nat, c: int)
    ensures c > 0 ==> n * c >= n
    ensures c < 0 ==> n * c <= -(n as int)
  {
    var d: nat := if c > 0 then c else -c;
    SlotIsProduct(n, d);
    assert c <= 0 ==> n * c == -(n * d);
    if c != 0 { SlotMono(n, 0, d); }
  }

  /** The unwrapped number is congruent to the frame number, so it names the bucket's own ring slot. */
  lemma OrderCongruent(s: Receiver, no: Word16)
    requires s.TableOk()
    ensures NextOrder(s, no) % 0x1_0000 == no
    ensures NextOrder(s, no) % |s.buckets| == s.Index(no)
  {
    hide Receiver.Pending, Receiver.Listed, Receiver.BucketsOk, Delta16;
    if !s.firstFrame { DeltaCongruent(s.recalc, s.oldNo, no); }
    ModThroughRing(NextOrder(s, no), |s.buckets|);
  }

  lemma DeltaIs(a: Word16, b: Word16)
    ensures Delta16(a, b) == a - b - 0x1_0000 || Delta16(a, b) == a - b || Delta16(a, b) == a - b + 0x1_0000
    ensures -0x8000 <= Delta16(a, b) < 0x8000
  {
  }

  lemma DeltaCongruent(x: int, last: Word16, no: Word16)
    requires x % 0x1_0000 == last
    ensures (x + Delta16(no, last)) % 0x1_0000 == no
  {
    DeltaIs(no, last);
    hide Delta16;
    assert x == 0x1_0000 * (x / 0x1_0000) + last;
  }

  lemma KeysActive(s: Receiver)
    requires s.TableOk()
    ensures forall o <- s.table :: s.buckets[o % |s.buckets|].active
  {
    forall o <- s.table ensures s.buckets[o % |s.buckets|].active {
      assert s.Pending(o) && s.Listed(s.table[o]);
      ModThroughRing(o, |s.buckets|);
    }
  }

  /** A bucket that is free cannot be opened under a key some other bucket holds. */
  lemma OrderFresh(s: Receiver, no: Word16)
    requires s.TableOk() && !s.buckets[s.Index(no)].active
    ensures NextOrder(s, no) !in s.table
  {
    OrderCongruent(s, no);
    KeysActive(s);
  }

  lemma InstallKeepsTable(s: Receiver, i: nat, b: Bucket)
    requires s.TableOk() && i < |s.buckets| && !s.buckets[i].active
    requires b.active ==>
      b.asm.Ok() && b.order !in s.table && b.order % 0x1_0000 == b.savedNo && s.Index(b.savedNo) == i
    ensures s.(buckets := s.buckets[i := b], table := if b.active then s.table[b.order := i] else s.table).TableOk()
  {
    hide Assembly.Ok;
    var t := s.(buckets := s.buckets[i := b], table := if b.active then s.table[b.order := i] else s.table);
    forall o <- t.table ensures t.Pending(o) { assert o in s.table ==> s.Pending(o); }
    forall k | 0 <= k < |t.buckets| && t.buckets[k].active ensures t.Listed(k) {
      assert s.buckets[k].active ==> s.Listed(k);
    }
  }

  lemma RecalculatedKeepsTable(s: Receiver, no: Word16)
    requires s.TableOk()
    ensures Recalculated(s, no).TableOk()
  {
    OrderCongruent(s, no);
    hide NextOrder, Assembly.Ok;
    var t := Recalculated(s, no);
    forall o <- t.table ensures t.Pending(o) { assert s.Pending(o); }
    forall k | 0 <= k < |t.buckets| && t.buckets[k].active ensures t.Listed(k) { assert s.Listed(k); }
  }

  lemma OpenKeepsTable(cfg: Settings, s: Receiver, p: Packet, source: Byte, now: int)
    requires s.TableOk() && HeaderError(p) == Ok && !s.buckets[s.Index(p.frameNo)].active
    ensures OpenStep(cfg, s, p, source, now).0.TableOk()
  {
    hide AllocSize, Open, OpenMeta, NextOrder, HeaderError, Assembly.Ok, Receiver.Pending, Receiver.Listed;
    HeaderOkInBounds(p);
    OpenOk(p);
    RecalculatedKeepsTable(s, p.frameNo);
    OrderCongruent(s, p.frameNo);
    OrderFresh(s, p.frameNo);
    var i, o := s.Index(p.frameNo), NextOrder(s, p.frameNo);
    var r := RememberStream(Recalculated(s, p.frameNo), p);
    assert r.TableOk() by { RememberKeepsTable(Recalculated(s, p.frameNo), p); }
    assert r.table - {o} == r.table;
    var b := OpenBucket(cfg, Recalculated(s, p.frameNo), p, o, source, now);
    InstallKeepsTable(r, i, b);
    InstallKeepsTable(r, i, b.(active := false));
    CounterFree(r.(buckets := r.buckets[i := b], table := r.table[o := i]));
  }

  lemma RememberKeepsTable(s: Receiver, p: Packet)
    requires s.TableOk()
    ensures RememberStream(s, p).TableOk()
  {
    hide Assembly.Ok;
    var t := RememberStream(s, p);
    forall o <- t.table ensures t.Pending(o) { assert s.Pending(o); }
    forall k | 0 <= k < |t.buckets| && t.buckets[k].active ensures t.Listed(k) { assert s.Listed(k); }
  }

  lemma CounterFree(s: Receiver)
    requires s.TableOk()
    ensures s.(openings := s.openings + 1).TableOk()
  {
    hide Assembly.Ok;
    var t := s.(openings := s.openings + 1);
    forall o <- t.table ensures t.Pending(o) { assert s.Pending(o); }
    forall k | 0 <= k < |t.buckets| && t.buckets[k].active ensures t.Listed(k) { assert s.Listed(k); }
  }

  lemma AcceptKeepsTable(s: Receiver, p: Packet, source: Byte)
    requires s.TableOk() && HeaderError(p) == Ok && s.buckets[s.Index(p.frameNo)].active
    ensures AcceptStep(s, p, source).0.TableOk() && AcceptStep(s, p, source).0.table == s.table
  {
    hide Place, HeaderError, BucketError, Placeable, Assembly.Ok;
    var b := s.buckets[s.Index(p.frameNo)];
    if BucketError(b, p, source) == Ok { AcceptKeeps(b, p, source); }
    var t := AcceptStep(s, p, source).0;
    forall o <- t.table ensures t.Pending(o) { assert s.Pending(o); }
    forall i | 0 <= i < |t.buckets| && t.buckets[i].active ensures t.Listed(i) { assert s.Listed(i); }
  }

  lemma HandleKeepsTable(cfg: Settings, s: Receiver, p: Packet, source: Byte, now: int)
    requires s.TableOk()
    ensures Handle(cfg, s, p, source, now).0.TableOk()
  {
    hide HeaderError, OpenStep, AcceptStep;
    if HeaderError(p) == Ok {
      if s.buckets[s.Index(p.frameNo)].active { AcceptKeepsTable(s, p, source); }
      else { OpenKeepsTable(cfg, s, p, source, now); }
    }
  }

  lemma {:induction false} BundleKeepsTable(cfg: Settings, s: Receiver, data: seq<Byte>, size: nat, source: Byte,
                                            now: int)
    requires s.TableOk() && size >= 8 && Multiple(|data|, size)
    ensures BundleLoop(cfg, s, data, size, source, now).0.TableOk()
    decreases |data|
  {
    hide Handle, Receiver.Pending, Receiver.Listed, Decode1, Assembly.Ok;
    if |data| >= size && GetFrameType(data[0]) == 1 {
      var p := Decode1(data[..size]);
      var (t, r) := Handle(cfg, s, p, source, now);
      HandleKeepsTable(cfg, s, p, source, now);
      if r == Ok || r == DuplicateFragment {
        StepDown(|data|, size);
        BundleKeepsTable(cfg, t, data[size..], size, source, now);
      }
    }
  }

  lemma DispatchKeepsTable(cfg: Settings, s: Receiver, data: seq<Byte>, source: Byte, now: int)
    requires s.TableOk()
    ensures Dispatch(cfg, s, data, source, now).0.TableOk()
  {
    hide Handle, BundleLoop, Receiver.Pending, Receiver.Listed, Decode;
    if data != [] {
      if 1 <= GetFrameType(data[0]) <= 3 && Readable(data) {
        HandleKeepsTable(cfg, s, Decode(data), source, now);
      } else if GetFrameType(data[0]) == 4 && |data| >= 2 {
        var count := data[1] as nat;
        if count != 0 && (|data| - 2) % count == 0 && (|data| - 2) / count >= 8 {
          EqualParts(|data| - 2, count);
          BundleKeepsTable(cfg, s, data[2..], (|data| - 2) / count, source, now);
        }
      }
    }
  }

  // ----- the sweep -----

  /** Only the NACK bookkeeping of buckets differs. */
  ghost predicate NackOnly(s: Receiver, t: Receiver) {
    && t == s.(buckets := t.buckets, nacks := t.nacks) && |t.buckets| == |s.buckets|
    && forall i | 0 <= i < |s.buckets| :: OnlyNackTiming(s.buckets[i], t.buckets[i])
  }

  predicate OnlyNackTiming(b: Bucket, c: Bucket) {
    c == b.(timing := b.timing.(lastNackUs := c.timing.lastNackUs, nackCount := c.timing.nackCount))
  }

  /** No bucket was NACKed more often than configured. */
  predicate NackBounded(cfg: Settings, s: Receiver) {
    forall b <- s.buckets :: b.timing.nackCount <= cfg.maxNackRetries
  }

  lemma {:induction false} NackAllOnly(cfg: Settings, s: Receiver, orders: seq<int>, now: int, delay: int -> int)
    requires s.TableOk() && forall o <- orders :: o in s.table
    ensures NackOnly(s, NackAll(cfg, s, orders, now, delay))
    ensures NackBounded(cfg, s) ==> NackBounded(cfg, NackAll(cfg, s, orders, now, delay))
    decreases |orders|
  {
    if orders != [] {
      assert s.Pending(orders[0]);
      var t := NackStep(cfg, s, s.table[orders[0]], now, delay(orders[0]));
      NackKeepsTable(cfg, s, orders[0], now, delay(orders[0]));
      assert NackOnly(s, t);
      hide NackStep, NackMessage, Assembly.Ok, Receiver.Listed, Receiver.Pending;
      NackAllOnly(cfg, t, orders[1..], now, delay);
    }
  }

  /** The frames delivered for a list of pending orders. */
  function Frames(s: Receiver, orders: seq<int>): (f: seq<Delivered>)
    requires s.TableOk() && forall o <- orders :: o in s.table
    ensures |f| == |orders|
  {
    if orders == [] then []
    else
      assert s.Pending(orders[0]);
      [DeliveredFrame(s.buckets[s.table[orders[0]]])] + Frames(s, orders[1..])
  }

  lemma {:induction false} FramesAt(s: Receiver, orders: seq<int>, k: nat)
    requires s.TableOk() && k < |orders| && forall o <- orders :: o in s.table
    ensures s.Pending(orders[k]) && Frames(s, orders)[k] == DeliveredFrame(s.buckets[s.table[orders[k]]])
    ensures Frames(s, orders)[k].order == orders[k]
  {
    assert s.Pending(orders[k]);
    if k > 0 { FramesAt(s, orders[1..], k - 1); }
  }

  /** Delivering one bucket leaves the others as they are. */
  lemma {:induction false} FramesKeep(s: Receiver, o: int, orders: seq<int>)
    requires s.TableOk() && o in s.table && s.Pending(o) && o !in orders && forall x <- orders :: x in s.table
    ensures DeliverStep(s, s.table[o]).TableOk() && forall x <- orders :: x in DeliverStep(s, s.table[o]).table
    ensures Frames(DeliverStep(s, s.table[o]), orders) == Frames(s, orders)
  {
    var t := DeliverStep(s, s.table[o]);
    DeliverKeepsTable(s, o);
    hide DeliveredFrame, Receiver.TableOk, Receiver.Listed;
    if orders != [] {
      assert s.Pending(orders[0]) && t.Pending(orders[0]) by { FramesAt(s, orders, 0); FramesAt(t, orders, 0); }
      FramesKeep(s, o, orders[1..]);
    }
  }

  lemma {:induction false} DeliverAllIs(s: Receiver, orders: seq<int>)
    requires s.TableOk() && StrictlyAscending(orders) && forall o <- orders :: o in s.table
    ensures DeliverAll(s, orders).delivered == s.delivered + Frames(s, orders)
    decreases |orders|
  {
    if orders != [] {
      assert s.Pending(orders[0]);
      var t := DeliverStep(s, s.table[orders[0]]);
      FramesKeep(s, orders[0], orders[1..]);
      hide Receiver.Listed, DeliveredFrame, Assembly.Ok;
      DeliverAllIs(t, orders[1..]);
      Associative(s.delivered, [DeliveredFrame(s.buckets[s.table[orders[0]]])], Frames(s, orders[1..]));
    }
  }

  predicate Retired(b: Bucket, c: Bucket) { c == b || c == b.(active := false) }

  ghost predicate OnlyRetired(s: Receiver, t: Receiver) {
    |t.buckets| == |s.buckets| && forall i | 0 <= i < |s.buckets| :: Retired(s.buckets[i], t.buckets[i])
  }

  lemma {:induction false} DeliverAllRetires(s: Receiver, orders: seq<int>)
    requires s.TableOk() && StrictlyAscending(orders) && forall o <- orders :: o in s.table
    ensures OnlyRetired(s, DeliverAll(s, orders))
    decreases |orders|
  {
    if orders != [] {
      assert s.Pending(orders[0]);
      var t := DeliverStep(s, s.table[orders[0]]);
      DeliverKeepsTable(s, orders[0]);
      hide Receiver.Listed, DeliveredFrame, Assembly.Ok;
      DeliverAllRetires(t, orders[1..]);
    }
  }

  lemma NackedStillDue(cfg: Settings, b: Bucket, c: Bucket, now: int)
    requires OnlyNackTiming(b, c)
    ensures Due(cfg, c, now) == Due(cfg, b, now)
    ensures b.asm.Ok() ==> c.asm.Ok() && DeliveredFrame(c) == DeliveredFrame(b)
  {
  }

  /** The orders whose buckets are due at time `now`, ascending. */
  function Batch(cfg: Settings, s: Receiver, now: int): (batch: seq<int>)
    requires s.TableOk()
    ensures StrictlyAscending(batch)
    ensures forall o :: o in batch <==> o in s.table && s.Pending(o) && Due(cfg, s.buckets[s.table[o]], now)
  {
    AscendingIs(s.table.Keys);
    DueAscending(cfg, s, Ascending(s.table.Keys), now);
    DueOrders(cfg, s, Ascending(s.table.Keys), now)
  }

  lemma {:induction false} NackedSameDue(cfg: Settings, s: Receiver, t: Receiver, orders: seq<int>, now: int)
    requires s.TableOk() && t.TableOk() && NackOnly(s, t) && forall o <- orders :: s.Pending(o) && t.Pending(o)
    ensures DueOrders(cfg, t, orders, now) == DueOrders(cfg, s, orders, now)
  {
    hide Due, Receiver.Listed, Assembly.Ok;
    if orders != [] {
      assert s.Pending(orders[0]);
      NackedStillDue(cfg, s.buckets[s.table[orders[0]]], t.buckets[s.table[orders[0]]], now);
      NackedSameDue(cfg, s, t, orders[1..], now);
    }
  }

  lemma {:induction false} NackedSameFrames(cfg: Settings, s: Receiver, t: Receiver, orders: seq<int>, now: int)
    requires s.TableOk() && t.TableOk() && NackOnly(s, t) && forall o <- orders :: o in s.table
    ensures Frames(t, orders) == Frames(s, orders)
  {
    hide Receiver.Listed, Assembly.Ok, DeliveredFrame;
    if orders != [] {
      assert s.Pending(orders[0]);
      NackedStillDue(cfg, s.buckets[s.table[orders[0]]], t.buckets[s.table[orders[0]]], now);
      NackedSameFrames(cfg, s, t, orders[1..], now);
    }
  }

  /** The two halves of a sweep. */
  function Nacked(cfg: Settings, s: Receiver, now: int, delay: int -> int): (t: Receiver)
    requires s.TableOk()
    ensures t.TableOk() && t.table == s.table
  {
    AscendingIs(s.table.Keys);
    if cfg.maxNackRetries == 0 then s else NackAll(cfg, s, Ascending(s.table.Keys), now, delay)
  }

  lemma NackedOnly(cfg: Settings, s: Receiver, now: int, delay: int -> int)
    requires s.TableOk()
    ensures NackOnly(s, Nacked(cfg, s, now, delay))
    ensures NackBounded(cfg, s) ==> NackBounded(cfg, Nacked(cfg, s, now, delay))
  {
    AscendingIs(s.table.Keys);
    NackAllOnly(cfg, s, Ascending(s.table.Keys), now, delay);
  }

  lemma SweepIs(cfg: Settings, s: Receiver, now: int, delay: int -> int)
    requires s.TableOk()
    ensures Sweep(cfg, s, now, delay) == DeliverAll(Nacked(cfg, s, now, delay), Batch(cfg, s, now))
  {
    var orders := Ascending(s.table.Keys);
    AscendingIs(s.table.Keys);
    var t := Nacked(cfg, s, now, delay);
    NackedOnly(cfg, s, now, delay);
    hide Due, Receiver.Listed, Assembly.Ok, DeliverAll, Ascending, NackAll, DueOrders;
    assert forall o <- orders :: s.Pending(o) && t.Pending(o);
    NackedSameDue(cfg, s, t, orders, now);
  }

  /** A sweep delivers exactly the due buckets, each as it stands, in strictly ascending order ... */
  lemma SweepDelivers(cfg: Settings, s: Receiver, now: int, delay: int -> int)
    requires s.TableOk()
    ensures Sweep(cfg, s, now, delay).delivered == s.delivered + Frames(s, Batch(cfg, s, now))
    ensures Sweep(cfg, s, now, delay).table == s.table - (set o <- Batch(cfg, s, now))
  {
    var t, batch := Nacked(cfg, s, now, delay), Batch(cfg, s, now);
    SweepIs(cfg, s, now, delay);
    NackedOnly(cfg, s, now, delay);
    hide Due, Assembly.Ok, Receiver.Listed, Batch, Nacked, Sweep;
    DeliverAllIs(t, batch);
    NackedSameFrames(cfg, s, t, batch, now);
  }

  /** ... and every bucket left behind is incomplete, before its deadline and within the head-of-line
      limit, and untouched except for its NACK bookkeeping. */
  lemma SweepLeaves(cfg: Settings, s: Receiver, now: int, delay: int -> int, o: int)
    requires s.TableOk() && o in Sweep(cfg, s, now, delay).table
    ensures var t := Sweep(cfg, s, now, delay);
      && t.Pending(o) && s.Pending(o) && t.table[o] == s.table[o]
      && var b := t.buckets[t.table[o]];
         && !b.asm.Complete() && now < b.timing.timeoutUs
         && (cfg.holTimeoutMs > 0 ==> now - b.timing.firstArrivalUs < cfg.holTimeoutMs * 1000)
         && OnlyNackTiming(s.buckets[s.table[o]], b)
  {
    var n, batch, t := Nacked(cfg, s, now, delay), Batch(cfg, s, now), Sweep(cfg, s, now, delay);
    SweepIs(cfg, s, now, delay);
    NackedOnly(cfg, s, now, delay);
    DeliverAllRetires(n, batch);
    SweepDelivers(cfg, s, now, delay);
    hide Assembly.Ok, Receiver.Listed, Batch, Nacked, Sweep, DeliverAll, Frames;
    assert o in s.table && o !in batch;
    assert s.Pending(o) && t.Pending(o);
    assert Retired(n.buckets[s.table[o]], t.buckets[s.table[o]]);
  }

  lemma NotPending(s: Receiver, i: nat)
    requires s.TableOk() && i < |s.buckets| && !s.buckets[i].active
    requires s.buckets[i].order % |s.buckets| == i
    ensures s.buckets[i].order !in s.table
  {
    KeysActive(s);
  }

  /** A bucket that is not due keeps everything but its NACK bookkeeping; a due one is free again. */
  lemma SweepBucket(cfg: Settings, s: Receiver, now: int, delay: int -> int, i: nat)
    requires s.TableOk() && i < |s.buckets|
    ensures var t := Sweep(cfg, s, now, delay);
      && |t.buckets| == |s.buckets|
      && (s.buckets[i].active && !Due(cfg, s.buckets[i], now) ==> OnlyNackTiming(s.buckets[i], t.buckets[i]))
      && (s.buckets[i].active && Due(cfg, s.buckets[i], now) ==>
            !t.buckets[i].active && t.buckets[i].order == s.buckets[i].order)
      && (!s.buckets[i].active ==> !t.buckets[i].active && t.buckets[i].order == s.buckets[i].order)
  {
    var t := Sweep(cfg, s, now, delay);
    SweepIs(cfg, s, now, delay);
    NackedOnly(cfg, s, now, delay);
    var n := Nacked(cfg, s, now, delay);
    DeliverAllRetires(n, Batch(cfg, s, now));
    SweepDelivers(cfg, s, now, delay);
    hide Sweep, Nacked, DeliverAll, Due, Frames, Assembly.Ok;
    assert OnlyNackTiming(s.buckets[i], n.buckets[i]) && Retired(n.buckets[i], t.buckets[i]);
    var o := s.buckets[i].order;
    if s.buckets[i].active {
      assert s.Listed(i) && s.Pending(o);
      assert t.buckets[i].active ==> t.Listed(i);
      assert o in t.table ==> t.Pending(o);
    }
  }

  lemma {:induction false} DeliverAllSequence(s: Receiver, orders: seq<int>)
    requires s.TableOk() && StrictlyAscending(orders) && forall o <- orders :: o in s.table
    ensures var t := DeliverAll(s, orders);
      t.firstFrame == s.firstFrame && t.oldNo == s.oldNo && t.recalc == s.recalc && t.streams == s.streams
    decreases |orders|
  {
    if orders != [] {
      assert s.Pending(orders[0]);
      DeliverKeepsTable(s, orders[0]);
      hide Receiver.Listed, DeliveredFrame, Assembly.Ok;
      DeliverAllSequence(DeliverStep(s, s.table[orders[0]]), orders[1..]);
    }
  }

  lemma SweepSequence(cfg: Settings, s: Receiver, now: int, delay: int -> int)
    requires s.TableOk()
    ensures var t := Sweep(cfg, s, now, delay);
      t.firstFrame == s.firstFrame && t.oldNo == s.oldNo && t.recalc == s.recalc && t.streams == s.streams
  {
    SweepIs(cfg, s, now, delay);
    NackedOnly(cfg, s, now, delay);
    hide Sweep, Nacked, Batch, DeliverAll, Receiver.Listed, Receiver.Pending;
    DeliverAllSequence(Nacked(cfg, s, now, delay), Batch(cfg, s, now));
  }

  // ----- accounting -----

  function Unbroken(d: seq<Delivered>): nat {
    if d == [] then 0 else Unbroken(d[..|d| - 1]) + (if d[|d| - 1].broken then 0 else 1)
  }

  /** Every opening is accounted for by a delivered or a pending frame, and the counters say which of
      the delivered ones were complete. */
  predicate Conserved(s: Receiver) {
    && s.openings == s.completeFrames + s.brokenFrames + |s.table|
    && |s.delivered| == s.completeFrames + s.brokenFrames
    && Unbroken(s.delivered) == s.completeFrames
  }

  ghost predicate Inv(cfg: Settings, s: Receiver) { s.TableOk() && Conserved(s) && NackBounded(cfg, s) }

  lemma OpenKeepsInv(cfg: Settings, s: Receiver, p: Packet, source: Byte, now: int)
    requires Inv(cfg, s) && HeaderError(p) == Ok && !s.buckets[s.Index(p.frameNo)].active
    ensures Inv(cfg, OpenStep(cfg, s, p, source, now).0)
  {
    OpenKeepsTable(cfg, s, p, source, now);
    OpenConserves(cfg, s, p, source, now);
    OpenBounded(cfg, s, p, source, now);
    hide OpenStep, Receiver.TableOk, Conserved, NackBounded, HeaderError;
  }

  lemma OpenConserves(cfg: Settings, s: Receiver, p: Packet, source: Byte, now: int)
    requires s.TableOk() && Conserved(s) && HeaderError(p) == Ok && !s.buckets[s.Index(p.frameNo)].active
    ensures Conserved(OpenStep(cfg, s, p, source, now).0)
  {
    OrderFresh(s, p.frameNo);
    HeaderOkInBounds(p);
    hide Receiver.BucketsOk, Receiver.Pending, Receiver.Listed, Open, OpenMeta, AllocSize, Unbroken, HeaderError,
         NextOrder;
    var o := NextOrder(s, p.frameNo);
    assert s.table - {o} == s.table;
    assert |s.table[o := s.Index(p.frameNo)]| == |s.table| + 1;
  }

  lemma OpenBounded(cfg: Settings, s: Receiver, p: Packet, source: Byte, now: int)
    requires s.TableOk() && NackBounded(cfg, s) && HeaderError(p) == Ok
    ensures NackBounded(cfg, OpenStep(cfg, s, p, source, now).0)
  {
    HeaderOkInBounds(p);
    hide Receiver.BucketsOk, Receiver.Pending, Receiver.Listed, Open, OpenMeta, AllocSize, HeaderError, NextOrder;
    var t, i := OpenStep(cfg, s, p, source, now).0, s.Index(p.frameNo);
    assert t.buckets == s.buckets || (t.buckets[i].timing.nackCount == 0 && t.buckets == s.buckets[i := t.buckets[i]]);
    hide OpenStep;
    forall b <- t.buckets ensures b.timing.nackCount <= cfg.maxNackRetries
    { assert b in s.buckets || b == t.buckets[i]; }
  }

  lemma AcceptKeepsInv(cfg: Settings, s: Receiver, p: Packet, source: Byte)
    requires Inv(cfg, s) && HeaderError(p) == Ok && s.buckets[s.Index(p.frameNo)].active
    ensures Inv(cfg, AcceptStep(s, p, source).0)
  {
    AcceptKeepsTable(s, p, source);
    hide Receiver.TableOk, Place, Placeable, BucketError, Unbroken, HeaderError;
  }

  lemma HandleKeepsInv(cfg: Settings, s: Receiver, p: Packet, source: Byte, now: int)
    requires Inv(cfg, s)
    ensures Inv(cfg, Handle(cfg, s, p, source, now).0)
  {
    hide HeaderError, OpenStep, AcceptStep, Conserved, NackBounded, Receiver.Listed, Receiver.Pending;
    if HeaderError(p) == Ok {
      if s.buckets[s.Index(p.frameNo)].active { AcceptKeepsInv(cfg, s, p, source); }
      else { OpenKeepsInv(cfg, s, p, source, now); }
    }
  }

  lemma {:induction false} BundleKeepsInv(cfg: Settings, s: Receiver, data: seq<Byte>, size: nat, source: Byte,
                                          now: int)
    requires Inv(cfg, s) && size >= 8 && Multiple(|data|, size)
    ensures Inv(cfg, BundleLoop(cfg, s, data, size, source, now).0)
    decreases |data|
  {
    hide Handle, Receiver.Pending, Receiver.Listed, Decode1, Assembly.Ok, Conserved, NackBounded;
    if |data| >= size && GetFrameType(data[0]) == 1 {
      var (t, r) := Handle(cfg, s, Decode1(data[..size]), source, now);
      HandleKeepsInv(cfg, s, Decode1(data[..size]), source, now);
      if r == Ok || r == DuplicateFragment {
        StepDown(|data|, size);
        BundleKeepsInv(cfg, t, data[size..], size, source, now);
      }
    }
  }

  lemma DispatchKeepsInv(cfg: Settings, s: Receiver, data: seq<Byte>, source: Byte, now: int)
    requires Inv(cfg, s)
    ensures Inv(cfg, Dispatch(cfg, s, data, source, now).0)
  {
    hide Handle, BundleLoop, Receiver.Pending, Receiver.Listed, Decode, Conserved, NackBounded;
    if data != [] {
      if 1 <= GetFrameType(data[0]) <= 3 && Readable(data) {
        HandleKeepsInv(cfg, s, Decode(data), source, now);
      } else if GetFrameType(data[0]) == 4 && |data| >= 2 {
        var count := data[1] as nat;
        if count != 0 && (|data| - 2) % count == 0 && (|data| - 2) / count >= 8 {
          EqualParts(|data| - 2, count);
          BundleKeepsInv(cfg, s, data[2..], (|data| - 2) / count, source, now);
        }
      }
    }
  }

  lemma {:induction false} DeliverAllConserves(cfg: Settings, s: Receiver, orders: seq<int>)
    requires Inv(cfg, s) && StrictlyAscending(orders) && forall o <- orders :: o in s.table
    ensures Inv(cfg, DeliverAll(s, orders))
    decreases |orders|
  {
    if orders != [] {
      assert s.Pending(orders[0]);
      var t := DeliverStep(s, s.table[orders[0]]);
      DeliverKeepsTable(s, orders[0]);
      hide Receiver.Listed, Assembly.Ok;
      assert t.delivered[..|t.delivered| - 1] == s.delivered;
      assert |t.table| == |s.table| - 1 by { assert t.table.Keys == s.table.Keys - {orders[0]}; }
      DeliverAllConserves(cfg, t, orders[1..]);
    }
  }

  lemma SweepKeepsInv(cfg: Settings, s: Receiver, now: int, delay: int -> int)
    requires Inv(cfg, s)
    ensures Inv(cfg, Sweep(cfg, s, now, delay))
  {
    SweepIs(cfg, s, now, delay);
    NackedOnly(cfg, s, now, delay);
    hide Sweep, Nacked, Batch, DeliverAll, Receiver.Listed, Receiver.Pending, Assembly.Ok;
    DeliverAllConserves(cfg, Nacked(cfg, s, now, delay), Batch(cfg, s, now));
  }

  // ----- runs -----

  /** `receive`: a packet, followed in RUN_TO_COMPLETION mode by a sweep. */
  function Receive(cfg: Settings, s: Receiver, data: seq<Byte>, source: Byte, now: int, delay: int -> int):
    (Receiver, Result)
    requires s.TableOk()
  {
    DispatchKeepsTable(cfg, s, data, source, now);
    var (t, r) := Dispatch(cfg, s, data, source, now);
    if cfg.autoSweep && data != [] && GetFrameType(data[0]) <= 4 then (Sweep(cfg, t, now, delay), r) else (t, r)
  }

  /** A packet arrives, or the worker thread or `poll` sweeps. */
  datatype Event =
    | Arrive(data: seq<Byte>, source: Byte, now: int, delay: int -> int)
    | Tick(now: int, delay: int -> int)

  function Step(cfg: Settings, s: Receiver, e: Event): (t: Receiver)
    requires s.TableOk()
    ensures t.TableOk()
  {
    match e
    case Arrive(data, source, now, delay) =>
      DispatchKeepsTable(cfg, s, data, source, now);
      Receive(cfg, s, data, source, now, delay).0
    case Tick(now, delay) => Sweep(cfg, s, now, delay)
  }

  function Run(cfg: Settings, s: Receiver, events: seq<Event>): (t: Receiver)
    requires s.TableOk()
    ensures t.TableOk()
    decreases |events|
  {
    if events == [] then s else Run(cfg, Step(cfg, s, events[0]), events[1..])
  }

  lemma StepKeepsInv(cfg: Settings, s: Receiver, e: Event)
    requires Inv(cfg, s)
    ensures Inv(cfg, Step(cfg, s, e))
  {
    hide Conserved, NackBounded, Sweep, Receiver.Pending, Receiver.Listed;
    match e {
      case Arrive(data, source, now, delay) =>
        DispatchKeepsInv(cfg, s, data, source, now);
        SweepKeepsInv(cfg, Dispatch(cfg, s, data, source, now).0, now, delay);
      case Tick(now, delay) =>
        SweepKeepsInv(cfg, s, now, delay);
    }
  }

  /** In every reachable state the table holds exactly the active buckets under their own orders, each
      opening is delivered complete, delivered broken, or pending, and no bucket was NACKed too often. */
  lemma {:induction false} RunKeepsInv(cfg: Settings, s: Receiver, events: seq<Event>)
    requires Inv(cfg, s)
    ensures Inv(cfg, Run(cfg, s, events))
    decreases |events|
  {
    hide Conserved, NackBounded, Step, Receiver.Pending, Receiver.Listed;
    if events != [] {
      StepKeepsInv(cfg, s, events[0]);
      RunKeepsInv(cfg, Step(cfg, s, events[0]), events[1..]);
    }
  }

  lemma InitialInv(cfg: Settings, n: nat)
    requires 0 < n && 0x1_0000 % n == 0
    ensures Inv(cfg, Initial(n))
  {
    var s := Initial(n);
    forall b <- s.buckets ensures b.timing.nackCount == 0 && !b.active {}
  }

  /** A delivered frame is marked unbroken exactly when every fragment index was received. */
  lemma DeliveredUnbrokenMeansAll(s: Receiver, o: int)
    requires s.TableOk() && o in s.table
    ensures s.Pending(o)
    ensures var b := s.buckets[s.table[o]];
      b.asm.Ok() && (!DeliveredFrame(b).broken <==> b.asm.received == Upto(b.asm.of + 1))
  {
    assert s.Pending(o);
    CompleteMeansAll(s.buckets[s.table[o]].asm);
  }
}
