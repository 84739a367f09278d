/** When frames reach the user in the order they were numbered. */
module FrameOrder {
  import opened Wire
  import opened Fragmenter
  import opened FrameMemory
  import opened Ordering
  import opened Results
  import opened ReceiverSpec
  import opened ReceiverRuns

  /** The frames were delivered in strictly ascending order. */
  predicate InOrder(d: seq<Delivered>) { forall j, k | 0 <= j < k < |d| :: d[j].order < d[k].order }

  /** Everything the sweep at `now` delivers is newer than the frame delivered last. */
  predicate AllNewer(cfg: Settings, s: Receiver, now: int)
    requires s.TableOk()
  {
    s.delivered == [] ||
    (var last, batch := s.delivered[|s.delivered| - 1].order, Batch(cfg, s, now);
     forall k | 0 <= k < |batch| :: last < batch[k])
  }

  lemma FramesInOrder(s: Receiver, orders: seq<int>)
    requires s.TableOk() && StrictlyAscending(orders) && forall o <- orders :: o in s.table
    ensures InOrder(Frames(s, orders))
  {
    var f := Frames(s, orders);
    forall j, k | 0 <= j < k < |f| ensures f[j].order < f[k].order {
      FramesAt(s, orders, j);
      FramesAt(s, orders, k);
    }
  }

  lemma Joined(a: seq<Delivered>, b: seq<Delivered>)
    requires InOrder(a) && InOrder(b)
    ensures InOrder(a + b) <==> a == [] || forall k | 0 <= k < |b| :: a[|a| - 1].order < b[k].order
  {
    if InOrder(a + b) && a != [] {
      forall k | 0 <= k < |b| ensures a[|a| - 1].order < b[k].order {
        assert (a + b)[|a| - 1] == a[|a| - 1] && (a + b)[|a| + k] == b[k];
      }
    }
  }

  /** A sweep keeps the order exactly if all it delivers is newer than what was delivered last. */
  lemma SweepOrder(cfg: Settings, s: Receiver, now: int, delay: int -> int)
    requires s.TableOk() && InOrder(s.delivered)
    ensures InOrder(Sweep(cfg, s, now, delay).delivered) <==> AllNewer(cfg, s, now)
  {
    hide Sweep, Batch, InOrder, Frames, Receiver.TableOk;
    var batch := Batch(cfg, s, now);
    SweepDelivers(cfg, s, now, delay);
    FramesInOrder(s, batch);
    var f := Frames(s, batch);
    Joined(s.delivered, f);
    forall k | 0 <= k < |f| ensures f[k].order == batch[k] { FramesAt(s, batch, k); }
    if s.delivered != [] { SameOrders(f, batch, s.delivered[|s.delivered| - 1].order); }
  }

  lemma SameOrders(f: seq<Delivered>, orders: seq<int>, last: int)
    requires |f| == |orders| && forall k | 0 <= k < |f| :: f[k].order == orders[k]
    ensures (forall k | 0 <= k < |orders| :: last < orders[k]) == (forall k | 0 <= k < |f| :: last < f[k].order)
  {
    if forall k | 0 <= k < |f| :: last < f[k].order {
      forall k | 0 <= k < |orders| ensures last < orders[k] { assert last < f[k].order; }
    }
  }

  // ----- runs -----

  lemma HandleDelivers(cfg: Settings, s: Receiver, p: Packet, source: Byte, now: int)
    requires s.TableOk()
    ensures Handle(cfg, s, p, source, now).0.delivered == s.delivered
  {
    hide HeaderError, BucketError, OpenBucket, AllocSize, Receiver.Pending, Receiver.Listed, Place;
  }

  lemma {:induction false} BundleDelivers(cfg: Settings, s: Receiver, data: seq<Byte>, size: nat, source: Byte,
                                          now: int)
    requires s.TableOk() && size >= 8 && Multiple(|data|, size)
    ensures BundleLoop(cfg, s, data, size, source, now).0.delivered == s.delivered
    decreases |data|
  {
    hide Handle, Receiver.Pending, Receiver.Listed, Decode1, Multiple;
    if |data| >= size && GetFrameType(data[0]) == 1 {
      var p := Decode1(data[..size]);
      HandleKeepsTable(cfg, s, p, source, now);
      HandleDelivers(cfg, s, p, source, now);
      StepDown(|data|, size);
      BundleDelivers(cfg, Handle(cfg, s, p, source, now).0, data[size..], size, source, now);
    }
  }

  /** No packet delivers anything by itself. */
  lemma DispatchDelivers(cfg: Settings, s: Receiver, data: seq<Byte>, source: Byte, now: int)
    requires s.TableOk()
    ensures Dispatch(cfg, s, data, source, now).0.delivered == s.delivered
  {
    hide Handle, BundleLoop, Receiver.Pending, Receiver.Listed, Decode, Multiple;
    if data != [] {
      if 1 <= GetFrameType(data[0]) <= 3 && Readable(data) {
        HandleDelivers(cfg, s, Decode(data), source, now);
      } else if GetFrameType(data[0]) == 4 && |data| >= 2 {
        var count := data[1] as nat;
        if count != 0 && (|data| - 2) % count == 0 && (|data| - 2) / count >= 8 {
          EqualParts(|data| - 2, count);
          BundleDelivers(cfg, s, data[2..], (|data| - 2) / count, source, now);
        }
      }
    }
  }

  /** The state that the sweep of this event finds, if the event sweeps. */
  function Swept(cfg: Settings, s: Receiver, e: Event): (t: Receiver)
    requires s.TableOk()
    ensures t.TableOk()
  {
    match e
    case Arrive(data, source, now, _) =>
      DispatchKeepsTable(cfg, s, data, source, now);
      Dispatch(cfg, s, data, source, now).0
    case Tick(_, _) => s
  }

  predicate Sweeps(cfg: Settings, e: Event) {
    e.Tick? || (cfg.autoSweep && e.data != [] && GetFrameType(e.data[0]) <= 4)
  }

  lemma StepIs(cfg: Settings, s: Receiver, e: Event)
    requires s.TableOk()
    ensures Swept(cfg, s, e).delivered == s.delivered
    ensures Step(cfg, s, e) == if Sweeps(cfg, e) then Sweep(cfg, Swept(cfg, s, e), e.now, e.delay) else Swept(cfg, s, e)
  {
    hide Dispatch, Sweep, Receiver.TableOk;
    if e.Arrive? { DispatchDelivers(cfg, s, e.data, e.source, e.now); }
  }

  /** Each sweep of the run delivers only frames newer than the last one delivered before it. */
  predicate RunNewer(cfg: Settings, s: Receiver, events: seq<Event>)
    requires s.TableOk()
    decreases |events|
  {
    events == [] ||
    (&& (Sweeps(cfg, events[0]) ==> AllNewer(cfg, Swept(cfg, s, events[0]), events[0].now))
     && RunNewer(cfg, Step(cfg, s, events[0]), events[1..]))
  }

  lemma {:induction false} RunExtends(cfg: Settings, s: Receiver, events: seq<Event>)
    requires s.TableOk()
    ensures s.delivered <= Run(cfg, s, events).delivered
    decreases |events|
  {
    hide Step, Sweep, Receiver.TableOk, Swept;
    if events != [] {
      StepIs(cfg, s, events[0]);
      StepExtends(cfg, s, events[0]);
      RunExtends(cfg, Step(cfg, s, events[0]), events[1..]);
    }
  }

  lemma StepExtends(cfg: Settings, s: Receiver, e: Event)
    requires s.TableOk()
    ensures s.delivered <= Step(cfg, s, e).delivered
  {
    hide Step, Sweep, Receiver.TableOk, Swept, Batch, Frames;
    StepIs(cfg, s, e);
    SweepDelivers(cfg, Swept(cfg, s, e), e.now, e.delay);
  }

  /** Over every run: frames are delivered in strictly ascending order if and only if every sweep delivers
      only frames newer than what was delivered before it. */
  lemma {:induction false} RunOrder(cfg: Settings, s: Receiver, events: seq<Event>)
    requires s.TableOk() && InOrder(s.delivered)
    ensures InOrder(Run(cfg, s, events).delivered) <==> RunNewer(cfg, s, events)
    decreases |events|
  {
    hide Step, Sweep, Receiver.TableOk, Swept, AllNewer, InOrder, Sweeps;
    if events != [] {
      var e := events[0];
      StepIs(cfg, s, e);
      SweepOrder(cfg, Swept(cfg, s, e), e.now, e.delay);
      if InOrder(Step(cfg, s, e).delivered) {
        RunOrder(cfg, Step(cfg, s, e), events[1..]);
      } else {
        RunExtends(cfg, Step(cfg, s, e), events[1..]);
        PrefixInOrder(Step(cfg, s, e).delivered, Run(cfg, Step(cfg, s, e), events[1..]).delivered);
      }
    }
  }

  lemma PrefixInOrder(a: seq<Delivered>, b: seq<Delivered>)
    requires a <= b
    ensures InOrder(b) ==> InOrder(a)
  {
  }
}
