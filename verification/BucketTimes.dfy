/** When a bucket is NACKed and when it is given up, over every run: in terms of the time at which it was opened, the
    times of the sweeps, and the messages sent. */
module BucketTimes {
  import opened Wire
  import opened Fragmenter
  import opened FrameMemory
  import opened NackRanges
  import opened Ordering
  import opened Results
  import opened ReceiverSpec
  import opened ReceiverRuns
  import opened SweepNacks
  import opened FrameOrder
  import opened Unrolling

  // ----- the messages for one superframe -----

  /** The messages whose first entry names this superframe. */
  function Naming(messages: seq<seq<Byte>>, no: Word16): seq<seq<Byte>> {
    if messages == [] then []
    else
      var m := messages[0];
      (if |m| >= 9 && DecodeEntry(m, 3).frameNo == no then [m] else []) + Naming(messages[1..], no)
  }

  lemma {:induction false} NamingJoin(a: seq<seq<Byte>>, b: seq<seq<Byte>>, no: Word16)
    ensures Naming(a + b, no) == Naming(a, no) + Naming(b, no)
  {
    if a == [] {
      assert a + b == b;
    } else {
      hide DecodeEntry;
      assert (a + b)[1..] == a[1..] + b;
      NamingJoin(a[1..], b, no);
    }
  }

  lemma MessageNames(b: Bucket)
    requires b.asm.Ok() && NackMessage(b) != []
    ensures var m := NackMessage(b); |m| >= 9 && DecodeEntry(m, 3).frameNo == b.savedNo
  {
    hide NackGaps, Assembly.Ok, EncodeNack, DecodeEntry;
    NackEntryRoundTrip(EntryList(b.meta.stream, b.savedNo, NackGaps(b)), 0);
  }

  /** The messages between two states. */
  function NewMessages(s: Receiver, t: Receiver): seq<seq<Byte>> {
    if |s.nacks| <= |t.nacks| then t.nacks[|s.nacks|..] else []
  }

  /** The slot of this number holds a pending bucket of this number and order. */
  predicate IsOpen(s: Receiver, no: Word16, order: int)
    requires s.Sized()
  {
    var b := s.buckets[s.Index(no)];
    b.active && b.savedNo == no && b.order == order
  }

  lemma OpenSlot(s: Receiver, no: Word16, order: int)
    requires s.TableOk() && IsOpen(s, no, order)
    ensures order in s.table && s.table[order] == s.Index(no) && s.buckets[s.Index(no)].asm.Ok()
  {
    assert s.Listed(s.Index(no));
  }

  /** Of the messages of a walk over pending buckets, only that bucket's can name its superframe. */
  lemma {:induction false} NamingWalk(cfg: Settings, s: Receiver, orders: seq<int>, now: int, delay: int -> int,
                                      no: Word16, order: int)
    requires s.TableOk() && StrictlyAscending(orders) && (forall o <- orders :: o in s.table) && IsOpen(s, no, order)
    ensures s.buckets[s.Index(no)].asm.Ok()
    ensures var b := s.buckets[s.Index(no)];
      Naming(MessagesFor(cfg, s, orders, now, delay), no)
        == if order in orders && SendsNack(cfg, b, now, delay(order)) then [NackMessage(b)] else []
    decreases |orders|
  {
    hide SendsNack, NackMessage, Assembly.Ok, Receiver.Listed, DecodeEntry;
    OpenSlot(s, no, order);
    if orders != [] {
      var o := orders[0];
      assert s.Pending(o);
      var b := s.buckets[s.table[o]];
      NamingWalk(cfg, s, orders[1..], now, delay, no, order);
      NamingOne(cfg, s, o, no, order, now, delay(o));
      NamingJoin(if SendsNack(cfg, b, now, delay(o)) then [NackMessage(b)] else [],
                 MessagesFor(cfg, s, orders[1..], now, delay), no);
      FirstApart(orders);
    }
  }

  lemma FirstApart(orders: seq<int>)
    requires orders != [] && StrictlyAscending(orders)
    ensures orders[0] !in orders[1..]
  {
  }

  lemma NamingOne(cfg: Settings, s: Receiver, o: int, no: Word16, order: int, now: int, delayUs: int)
    requires s.TableOk() && o in s.table && IsOpen(s, no, order)
    ensures s.Pending(o)
    ensures var b := s.buckets[s.table[o]];
      Naming(if SendsNack(cfg, b, now, delayUs) then [NackMessage(b)] else [], no)
        == if o == order && SendsNack(cfg, b, now, delayUs) then [NackMessage(b)] else []
  {
    hide NackDue, NackMessage, Assembly.Ok, DecodeEntry;
    assert s.Pending(o);
    var b := s.buckets[s.table[o]];
    assert s.Listed(s.table[o]) && s.Listed(s.Index(no));
    if SendsNack(cfg, b, now, delayUs) { MessageNames(b); }
  }

  /** A sweep sends at most one message for this superframe: that of its bucket, if it is NACKed. */
  lemma SweepNames(cfg: Settings, s: Receiver, now: int, delay: int -> int, no: Word16, order: int)
    requires s.TableOk() && IsOpen(s, no, order)
    ensures var b := s.buckets[s.Index(no)];
      b.asm.Ok() && Naming(NewMessages(s, Sweep(cfg, s, now, delay)), no)
                 == if SendsNack(cfg, b, now, delay(order)) then [NackMessage(b)] else []
  {
    hide SendsNack, NackMessage, Assembly.Ok, Sweep, Ascending, MessagesFor, Receiver.Pending, Receiver.Listed, Naming,
         Noted;
    OpenSlot(s, no, order);
    SweepAsks(cfg, s, now, delay, s.Index(no));
    AscendingIs(s.table.Keys);
    NamingWalk(cfg, s, Ascending(s.table.Keys), now, delay, no, order);
  }

  lemma AskedIfMissing(b: Bucket)
    requires b.asm.Ok()
    ensures b.asm.Complete() <==> b.asm.received == Upto(b.asm.of + 1)
    ensures !b.asm.Complete() ==> NackMessage(b) != []
  {
    CompleteMeansAll(b.asm);
    assert b.asm.received <= Upto(b.asm.of + 1);
    hide Assembly.Ok, Gaps, Missing, EncodeNack, Limited;
    LimitedPrefix(b.asm.received, b.asm.of);
    MissingIs(b.asm.received, 0, b.asm.of + 1);
    ExpandNone();
    if Missing(b.asm.received, 0, b.asm.of + 1) == [] { AllOf(b.asm.received, b.asm.of); }
  }

  lemma ExpandNone()
    ensures Expand([]) == []
  {
  }

  lemma AllOf(received: set<nat>, of: nat)
    requires received <= Upto(of + 1) && Missing(received, 0, of + 1) == []
    ensures received == Upto(of + 1)
  {
    MissingIs(received, 0, of + 1);
  }

  // ----- the clock of one bucket -----

  /** Opened at `t0`, and NACKed at these times. */
  predicate Clock(cfg: Settings, b: Bucket, t0: int, past: seq<int>) {
    && b.timing.timeoutUs == t0 + cfg.TimeoutUs() && b.timing.firstArrivalUs == t0 && b.timing.nackCount == |past|
    && b.timing.lastNackUs == if past == [] then 0 else past[|past| - 1]
  }

  /** A fragment leaves the clock of a pending bucket as it is, or opens the bucket now. */
  lemma HandleClock(cfg: Settings, s: Receiver, p: Packet, source: Byte, now: int, no: Word16, order: int)
    requires s.TableOk()
    ensures var t := Handle(cfg, s, p, source, now).0;
      && t.TableOk() && t.nacks == s.nacks && t.Index(no) == s.Index(no)
      && (IsOpen(s, no, order) ==>
            IsOpen(t, no, order) && t.buckets[t.Index(no)].timing == s.buckets[s.Index(no)].timing)
      && (IsOpen(t, no, order) && !IsOpen(s, no, order) ==> Clock(cfg, t.buckets[t.Index(no)], now, []))
  {
    hide Handle, Receiver.BucketsOk, Receiver.Pending, Receiver.Listed, Settings.TimeoutUs;
    HandleKeepsTable(cfg, s, p, source, now);
    HandleTimings(cfg, s, p, source, now, s.Index(no));
  }

  /** It changes the name, activity or times of a bucket only by opening it. */
  lemma HandleTimings(cfg: Settings, s: Receiver, p: Packet, source: Byte, now: int, i: nat)
    requires s.Sized() && s.BucketsOk() && i < |s.buckets|
    ensures var t := Handle(cfg, s, p, source, now).0;
      && t.nacks == s.nacks && |t.buckets| == |s.buckets|
      && var b, c := s.buckets[i], t.buckets[i];
         || (c.active == b.active && c.savedNo == b.savedNo && c.order == b.order && c.timing == b.timing)
         || (!b.active && c.timing == Timing(now + cfg.TimeoutUs(), now, 0, 0))
  {
    hide HeaderError, AllocSize, BucketError, Place, Placeable, FrameMemory.Open, Assembly.Ok, OpenMeta, NextOrder,
         Settings.TimeoutUs;
  }

  lemma {:induction false} FoldClock(cfg: Settings, s: Receiver, ps: seq<Packet>, source: Byte, now: int, no: Word16,
                                     order: int)
    requires s.TableOk()
    ensures var t := Fold(cfg, s, ps, source, now);
      && t.nacks == s.nacks && t.Index(no) == s.Index(no)
      && (IsOpen(s, no, order) ==>
            IsOpen(t, no, order) && t.buckets[t.Index(no)].timing == s.buckets[s.Index(no)].timing)
      && (IsOpen(t, no, order) && !IsOpen(s, no, order) ==> Clock(cfg, t.buckets[t.Index(no)], now, []))
    decreases |ps|
  {
    TableIsSized(s);
    hide Handle, Receiver.TableOk, Settings.TimeoutUs;
    if ps != [] {
      HandleClock(cfg, s, ps[0], source, now, no, order);
      FoldClock(cfg, Handle(cfg, s, ps[0], source, now).0, ps[1..], source, now, no, order);
    }
  }

  lemma DispatchClock(cfg: Settings, s: Receiver, data: seq<Byte>, source: Byte, now: int, no: Word16, order: int)
    requires s.TableOk()
    ensures var t := Dispatch(cfg, s, data, source, now).0;
      && t.TableOk() && t.nacks == s.nacks && t.Index(no) == s.Index(no)
      && (IsOpen(s, no, order) ==>
            IsOpen(t, no, order) && t.buckets[t.Index(no)].timing == s.buckets[s.Index(no)].timing)
      && (IsOpen(t, no, order) && !IsOpen(s, no, order) ==> Clock(cfg, t.buckets[t.Index(no)], now, []))
  {
    hide Dispatch, Fold, Handled, Settings.TimeoutUs;
    DispatchKeepsTable(cfg, s, data, source, now);
    DispatchFolds(cfg, s, data, source, now);
    FoldClock(cfg, s, Handled(cfg, s, data, source, now), source, now, no, order);
  }

  /** The delay since the last NACK, or since the bucket was opened, is over at `now`. */
  predicate Over(t0: int, past: seq<int>, delayUs: int, now: int) {
    (if past == [] then t0 else past[|past| - 1]) + delayUs <= now
  }

  lemma NackIf(cfg: Settings, b: Bucket, t0: int, past: seq<int>, now: int, delayUs: int)
    requires b.asm.Ok() && Clock(cfg, b, t0, past) && Nonzero(past)
    ensures SendsNack(cfg, b, now, delayUs) <==>
      b.asm.received != Upto(b.asm.of + 1) && |past| < cfg.maxNackRetries && Over(t0, past, delayUs, now)
    ensures Clock(cfg, Noted(cfg, b, now, delayUs), t0,
                  if SendsNack(cfg, b, now, delayUs) then past + [now] else past)
  {
    AskedIfMissing(b);
    hide NackMessage, Assembly.Ok, Assembly.Complete, Settings.TimeoutUs;
  }

  /** A sweep closes the bucket exactly if it is complete or a deadline has come. */
  predicate Closing(cfg: Settings, b: Bucket, t0: int, now: int) {
    || b.asm.received == Upto(b.asm.of + 1)
    || now >= t0 + 1000 * cfg.timeoutMs % 0x1_0000_0000
    || (cfg.holTimeoutMs > 0 && now >= t0 + 1000 * cfg.holTimeoutMs)
  }

  lemma DueIf(cfg: Settings, b: Bucket, t0: int, past: seq<int>, now: int)
    requires b.asm.Ok() && Clock(cfg, b, t0, past)
    ensures Due(cfg, b, now) <==> Closing(cfg, b, t0, now)
  {
    AskedIfMissing(b);
    hide NackMessage, Assembly.Ok, Assembly.Complete;
  }

  /** The bucket in the slot of this number, as a sweep of this event finds it. */
  function Found(cfg: Settings, s: Receiver, e: Event, no: Word16): Bucket
    requires s.TableOk()
  {
    var m := Swept(cfg, s, e); m.buckets[m.Index(no)]
  }

  /** One event of a pending bucket: which message is sent for it, whether it stays, and its clock if it does. */
  lemma StepClock(cfg: Settings, s: Receiver, e: Event, no: Word16, order: int, t0: int, past: seq<int>)
    requires s.TableOk() && IsOpen(s, no, order) && Clock(cfg, s.buckets[s.Index(no)], t0, past)
    requires Nonzero(past)
    ensures Found(cfg, s, e, no).asm.Ok()
    ensures var t, b := Step(cfg, s, e), Found(cfg, s, e, no);
      var sent := Naming(NewMessages(s, t), no);
      && (sent == [] || sent == [NackMessage(b)])
      && (sent != [] <==> Sweeps(cfg, e) && b.asm.received != Upto(b.asm.of + 1) && |past| < cfg.maxNackRetries
                          && Over(t0, past, e.delay(order), e.now))
      && (IsOpen(t, no, order) <==> !(Sweeps(cfg, e) && Closing(cfg, b, t0, e.now)))
      && (IsOpen(t, no, order) ==> Clock(cfg, t.buckets[t.Index(no)], t0, if sent != [] then past + [e.now] else past))
  {
    hide Dispatch, Step, Sweep, NackMessage, Assembly.Ok, Settings.TimeoutUs, Receiver.Pending, Receiver.Listed, Naming,
         SendsNack, Noted, Due, Closing, Over, MessagesFor, Ascending, Receiver.BucketsOk;
    StepIs(cfg, s, e);
    if e.Arrive? { DispatchClock(cfg, s, e.data, e.source, e.now, no, order); }
    var m := Swept(cfg, s, e);
    var b := m.buckets[m.Index(no)];
    OpenSlot(m, no, order);
    NackIf(cfg, b, t0, past, e.now, e.delay(order));
    DueIf(cfg, b, t0, past, e.now);
    if Sweeps(cfg, e) {
      SweepNames(cfg, m, e.now, e.delay, no, order);
      SweepAsks(cfg, m, e.now, e.delay, m.Index(no));
      SweepBucket(cfg, m, e.now, e.delay, m.Index(no));
      TimingsEqual(cfg, Step(cfg, s, e).buckets[m.Index(no)], Noted(cfg, b, e.now, e.delay(order)), t0,
                   if SendsNack(cfg, b, e.now, e.delay(order)) then past + [e.now] else past);
      assert NewMessages(s, Step(cfg, s, e)) == NewMessages(m, Step(cfg, s, e));
    } else {
      NothingNew(s, Step(cfg, s, e), no);
    }
  }

  lemma TimingsEqual(cfg: Settings, b: Bucket, d: Bucket, t0: int, past: seq<int>)
    requires b.timing == d.timing && Clock(cfg, d, t0, past)
    ensures Clock(cfg, b, t0, past)
  {
  }

  lemma NothingNew(s: Receiver, t: Receiver, no: Word16)
    requires t.nacks == s.nacks
    ensures Naming(NewMessages(s, t), no) == []
  {
  }

  // ----- runs -----

  /** The bucket is pending before each of these events, and sweeps come at positive times. */
  predicate Pends(cfg: Settings, s: Receiver, events: seq<Event>, no: Word16, order: int)
    requires s.TableOk()
    decreases |events|
  {
    && IsOpen(s, no, order)
    && (events == [] || (0 < events[0].now && Pends(cfg, Step(cfg, s, events[0]), events[1..], no, order)))
  }

  /** The times of the events that send a message for this superframe. */
  function SentAt(cfg: Settings, s: Receiver, events: seq<Event>, no: Word16): seq<int>
    requires s.TableOk()
    decreases |events|
  {
    if events == [] then []
    else
      var t := Step(cfg, s, events[0]);
      (if Naming(NewMessages(s, t), no) != [] then [events[0].now] else []) + SentAt(cfg, t, events[1..], no)
  }

  /** The first event of a run: a message now, or none. */
  lemma OneEvent(cfg: Settings, s: Receiver, events: seq<Event>, no: Word16, order: int, t0: int, past: seq<int>)
    returns (sent: seq<int>)
    requires s.TableOk() && events != [] && Pends(cfg, s, events, no, order)
    requires s.Sized() && Clock(cfg, s.buckets[s.Index(no)], t0, past) && Nonzero(past)
    ensures var t := Step(cfg, s, events[0]);
      && t.Sized() && Pends(cfg, t, events[1..], no, order)
      && Clock(cfg, t.buckets[t.Index(no)], t0, past + sent) && Nonzero(past + sent)
      && SentAt(cfg, s, events, no) == sent + SentAt(cfg, t, events[1..], no)
    ensures sent == [] || (&& sent == [events[0].now] && |past| < cfg.maxNackRetries
                           && Over(t0, past, events[0].delay(order), events[0].now))
  {
    TableIsSized(s);
    TableIsSized(Step(cfg, s, events[0]));
    hide Step, Receiver.TableOk, Receiver.BucketsOk, Clock, Naming, NewMessages, IsOpen, Found, Closing, Over,
         NackMessage, Sweeps, Assembly.Ok;
    StepClock(cfg, s, events[0], no, order, t0, past);
    var t := Step(cfg, s, events[0]);
    StillOpen(cfg, t, events[1..], no, order);
    sent := if Naming(NewMessages(s, t), no) != [] then [events[0].now] else [];
    assert past + [] == past;
  }

  predicate Nonzero(past: seq<int>) { past != [] ==> past[|past| - 1] != 0 }

  lemma {:induction false} RunClock(cfg: Settings, s: Receiver, events: seq<Event>, no: Word16, order: int, t0: int,
                                    past: seq<int>)
    requires s.TableOk() && s.Sized() && Pends(cfg, s, events, no, order)
    requires Clock(cfg, s.buckets[s.Index(no)], t0, past) && Nonzero(past)
    ensures var r, all := Run(cfg, s, events), past + SentAt(cfg, s, events, no);
      r.Sized() && IsOpen(r, no, order) && Clock(cfg, r.buckets[r.Index(no)], t0, all) && Nonzero(all)
    decreases |events|
  {
    hide Step, Receiver.TableOk, Clock, SentAt, IsOpen, Pends, Nonzero, Over;
    if events == [] {
      NoEvents(cfg, s, no, order);
      assert past + [] == past;
    } else {
      var sent := OneEvent(cfg, s, events, no, order, t0, past);
      var t := Step(cfg, s, events[0]);
      RunClock(cfg, t, events[1..], no, order, t0, past + sent);
      assert past + sent + SentAt(cfg, t, events[1..], no) == past + (sent + SentAt(cfg, t, events[1..], no));
    }
  }

  lemma NoEvents(cfg: Settings, s: Receiver, no: Word16, order: int)
    requires s.TableOk()
    ensures SentAt(cfg, s, [], no) == [] && (Pends(cfg, s, [], no, order) ==> s.Sized() && IsOpen(s, no, order))
  {
    TableIsSized(s);
  }

  lemma StillOpen(cfg: Settings, s: Receiver, events: seq<Event>, no: Word16, order: int)
    requires s.TableOk() && Pends(cfg, s, events, no, order)
    ensures s.Sized() && IsOpen(s, no, order)
  {
  }

  /** The packet opens the bucket of this number under this order. */
  predicate Opens(cfg: Settings, s: Receiver, data: seq<Byte>, source: Byte, t0: int, no: Word16, order: int)
    requires s.TableOk()
  {
    DispatchKeepsTable(cfg, s, data, source, t0);
    !IsOpen(s, no, order) && IsOpen(Dispatch(cfg, s, data, source, t0).0, no, order)
  }

  /** The receiver behind the packet that opens the bucket, after further events. */
  function Later(cfg: Settings, s: Receiver, data: seq<Byte>, source: Byte, t0: int, events: seq<Event>): (t: Receiver)
    requires s.TableOk()
    ensures t.TableOk()
  {
    DispatchKeepsTable(cfg, s, data, source, t0);
    Run(cfg, Dispatch(cfg, s, data, source, t0).0, events)
  }

  lemma LaterClock(cfg: Settings, s: Receiver, data: seq<Byte>, source: Byte, t0: int, events: seq<Event>, no: Word16,
                   order: int)
    requires s.TableOk() && Opens(cfg, s, data, source, t0, no, order)
    requires Later(cfg, s, data, source, t0, []).TableOk()
      && Pends(cfg, Later(cfg, s, data, source, t0, []), events, no, order)
    ensures var u, r := Later(cfg, s, data, source, t0, []), Later(cfg, s, data, source, t0, events);
      var past := SentAt(cfg, u, events, no);
      && IsOpen(r, no, order) && Clock(cfg, r.buckets[r.Index(no)], t0, past)
      && Nonzero(past)
  {
    hide Dispatch, Receiver.TableOk, Clock, IsOpen, Pends, SentAt;
    TableIsSized(s);
    DispatchKeepsTable(cfg, s, data, source, t0);
    var u := Dispatch(cfg, s, data, source, t0).0;
    TableIsSized(u);
    DispatchClock(cfg, s, data, source, t0, no, order);
    RunClock(cfg, u, events, no, order, t0, []);
    assert [] + SentAt(cfg, u, events, no) == SentAt(cfg, u, events, no);
  }

  /** Over every run. The bucket was opened at `t0`, and after any events it is still pending. Then the next event sends
      a message for its superframe exactly if it sweeps, a fragment is missing, fewer messages than the configured
      retries were sent for it so far, and the delay is over: counted from `t0` if none was sent, and from the last
      one otherwise. The message is that of the bucket, and there is only one. */
  lemma NackTiming(cfg: Settings, s: Receiver, data: seq<Byte>, source: Byte, t0: int, events: seq<Event>, e: Event,
                   no: Word16, order: int)
    requires s.TableOk() && Opens(cfg, s, data, source, t0, no, order)
    requires Pends(cfg, Later(cfg, s, data, source, t0, []), events, no, order)
    ensures Found(cfg, Later(cfg, s, data, source, t0, events), e, no).asm.Ok()
    ensures var r, past := Later(cfg, s, data, source, t0, events),
                           SentAt(cfg, Later(cfg, s, data, source, t0, []), events, no);
      var b, sent := Found(cfg, r, e, no), Naming(NewMessages(r, Step(cfg, r, e)), no);
      && (sent == [] || sent == [NackMessage(b)])
      && (sent != [] <==>
            && Sweeps(cfg, e) && b.asm.received != Upto(b.asm.of + 1) && |past| < cfg.maxNackRetries
            && (if past == [] then t0 else past[|past| - 1]) + e.delay(order) <= e.now)
  {
    hide Later, Receiver.TableOk, Clock, IsOpen, Pends, SentAt, Naming, NewMessages, Found, Opens, Step, NackMessage,
         Assembly.Ok;
    LaterClock(cfg, s, data, source, t0, events, no, order);
    StepClock(cfg, Later(cfg, s, data, source, t0, events), e, no, order, t0,
              SentAt(cfg, Later(cfg, s, data, source, t0, []), events, no));
  }

  /** And it closes the bucket exactly if it sweeps and the frame is complete or a deadline counted from `t0` has
      come. */
  lemma Deadline(cfg: Settings, s: Receiver, data: seq<Byte>, source: Byte, t0: int, events: seq<Event>, e: Event,
                 no: Word16, order: int)
    requires s.TableOk() && Opens(cfg, s, data, source, t0, no, order)
    requires Pends(cfg, Later(cfg, s, data, source, t0, []), events, no, order)
    ensures var r := Later(cfg, s, data, source, t0, events);
      var b := Found(cfg, r, e, no);
      !IsOpen(Step(cfg, r, e), no, order) <==>
        && Sweeps(cfg, e)
        && (|| b.asm.received == Upto(b.asm.of + 1)
            || e.now >= t0 + 1000 * cfg.timeoutMs % 0x1_0000_0000
            || (cfg.holTimeoutMs > 0 && e.now >= t0 + 1000 * cfg.holTimeoutMs))
  {
    hide Later, Receiver.TableOk, Clock, IsOpen, Pends, SentAt, Naming, NewMessages, Found, Opens, Step, NackMessage,
         Assembly.Ok;
    LaterClock(cfg, s, data, source, t0, events, no, order);
    StepClock(cfg, Later(cfg, s, data, source, t0, events), e, no, order, t0,
              SentAt(cfg, Later(cfg, s, data, source, t0, []), events, no));
  }

  /** So with delays of at least `d` no NACK comes before `t0 + d`, no two are closer than `d`, and there are at most as
      many as configured. */
  predicate Spaced(t0: int, times: seq<int>, d: int) {
    && (times != [] ==> t0 + d <= times[0])
    && forall k | 0 <= k < |times| - 1 :: times[k] + d <= times[k + 1]
  }

  lemma {:induction false} RunSpaced(cfg: Settings, s: Receiver, events: seq<Event>, no: Word16, order: int, t0: int,
                                     past: seq<int>, d: int)
    requires s.TableOk() && s.Sized() && Pends(cfg, s, events, no, order)
    requires Clock(cfg, s.buckets[s.Index(no)], t0, past) && Nonzero(past)
    requires Spaced(t0, past, d) && |past| <= cfg.maxNackRetries
    requires forall i | 0 <= i < |events| :: events[i].delay(order) >= d
    ensures var all := past + SentAt(cfg, s, events, no); Spaced(t0, all, d) && |all| <= cfg.maxNackRetries
    decreases |events|
  {
    hide Step, Receiver.TableOk, Clock, SentAt, IsOpen, Pends, Nonzero, Spaced, Over;
    if events == [] {
      NoEvents(cfg, s, no, order);
      assert past + [] == past;
    } else {
      var sent := OneEvent(cfg, s, events, no, order, t0, past);
      var t := Step(cfg, s, events[0]);
      SpacedMore(t0, past, sent, d, events[0].delay(order), events[0].now);
      assert forall i | 0 <= i < |events| - 1 :: events[1..][i] == events[i + 1];
      RunSpaced(cfg, t, events[1..], no, order, t0, past + sent, d);
      assert past + sent + SentAt(cfg, t, events[1..], no) == past + (sent + SentAt(cfg, t, events[1..], no));
    }
  }

  lemma SpacedMore(t0: int, past: seq<int>, sent: seq<int>, d: int, delayUs: int, now: int)
    requires Spaced(t0, past, d) && d <= delayUs && (sent == [] || (sent == [now] && Over(t0, past, delayUs, now)))
    ensures Spaced(t0, past + sent, d)
  {
    assert past + [] == past;
  }

  lemma NacksSpaced(cfg: Settings, s: Receiver, data: seq<Byte>, source: Byte, t0: int, events: seq<Event>,
                    no: Word16, order: int, d: int)
    requires s.TableOk() && Opens(cfg, s, data, source, t0, no, order)
    requires Pends(cfg, Later(cfg, s, data, source, t0, []), events, no, order)
    requires forall i | 0 <= i < |events| :: events[i].delay(order) >= d
    ensures var times := SentAt(cfg, Later(cfg, s, data, source, t0, []), events, no);
      Spaced(t0, times, d) && |times| <= cfg.maxNackRetries
  {
    hide Dispatch, Receiver.TableOk, Clock, IsOpen, Pends, SentAt;
    TableIsSized(s);
    DispatchKeepsTable(cfg, s, data, source, t0);
    var u := Dispatch(cfg, s, data, source, t0).0;
    TableIsSized(u);
    DispatchClock(cfg, s, data, source, t0, no, order);
    RunSpaced(cfg, u, events, no, order, t0, [], d);
    assert [] + SentAt(cfg, u, events, no) == SentAt(cfg, u, events, no);
  }
}
