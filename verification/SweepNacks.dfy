/** What a sweep asks for: one NACK for each pending bucket whose delay is over and whose retries are not used up,
    in the order of their numbers. */
module SweepNacks {
  import opened Wire
  import opened FrameMemory
  import opened NackRanges
  import opened Ordering
  import opened Results
  import opened ReceiverSpec
  import opened ReceiverRuns

  /** This bucket is NACKed. */
  predicate SendsNack(cfg: Settings, b: Bucket, now: int, delayUs: int)
    requires b.asm.Ok()
  {
    NackDue(cfg, b, now, delayUs) && NackMessage(b) != []
  }

  /** Its bookkeeping afterwards. */
  function Noted(cfg: Settings, b: Bucket, now: int, delayUs: int): Bucket
    requires b.asm.Ok()
  {
    if !SendsNack(cfg, b, now, delayUs) then b
    else b.(timing := b.timing.(lastNackUs := now, nackCount := b.timing.nackCount + 1))
  }

  /** The messages for a list of pending orders. */
  function MessagesFor(cfg: Settings, s: Receiver, orders: seq<int>, now: int, delay: int -> int): seq<seq<Byte>>
    requires s.TableOk() && forall o <- orders :: o in s.table
  {
    if orders == [] then []
    else
      assert s.Pending(orders[0]);
      var b := s.buckets[s.table[orders[0]]];
      (if SendsNack(cfg, b, now, delay(orders[0])) then [NackMessage(b)] else [])
        + MessagesFor(cfg, s, orders[1..], now, delay)
  }

  /** Bucket `i` after the walk over a list of orders. */
  function AfterWalk(cfg: Settings, s: Receiver, orders: seq<int>, now: int, delay: int -> int, i: nat): Bucket
    requires s.BucketsOk() && i < |s.buckets|
  {
    var b := s.buckets[i];
    if b.active && b.order in orders then Noted(cfg, b, now, delay(b.order)) else b
  }

  lemma {:induction false} SameMessages(cfg: Settings, s: Receiver, t: Receiver, orders: seq<int>, now: int,
                                        delay: int -> int)
    requires s.TableOk() && t.TableOk() && t.table == s.table && |t.buckets| == |s.buckets|
    requires forall o <- orders :: o in s.table && s.Pending(o) && t.buckets[s.table[o]] == s.buckets[s.table[o]]
    ensures MessagesFor(cfg, t, orders, now, delay) == MessagesFor(cfg, s, orders, now, delay)
  {
    hide SendsNack, NackMessage, Assembly.Ok, Receiver.Listed;
    if orders != [] {
      var o := orders[0];
      assert s.Pending(o) && t.buckets[t.table[o]] == s.buckets[s.table[o]];
      SameMessages(cfg, s, t, orders[1..], now, delay);
    }
  }

  /** One step of the walk. */
  lemma StepNotes(cfg: Settings, s: Receiver, o: int, now: int, delayUs: int)
    requires s.TableOk() && o in s.table
    ensures s.Pending(o)
    ensures var i := s.table[o];
      var b, t := s.buckets[i], NackStep(cfg, s, i, now, delayUs);
      && t.TableOk() && t.table == s.table && t.buckets == s.buckets[i := Noted(cfg, b, now, delayUs)]
      && t.nacks == s.nacks + if SendsNack(cfg, b, now, delayUs) then [NackMessage(b)] else []
  {
    hide NackDue, NackMessage, Assembly.Ok, Receiver.Listed;
    assert s.Pending(o);
    NackKeepsTable(cfg, s, o, now, delayUs);
  }

  /** The buckets of the other orders are as before. */
  lemma OthersSame(cfg: Settings, s: Receiver, m: Receiver, orders: seq<int>, now: int, delayUs: int)
    requires s.TableOk() && StrictlyAscending(orders) && orders != [] && forall o <- orders :: o in s.table
    requires s.Pending(orders[0])
    requires var k := s.table[orders[0]]; m.buckets == s.buckets[k := Noted(cfg, s.buckets[k], now, delayUs)]
    ensures orders[0] !in orders[1..] && StrictlyAscending(orders[1..])
    ensures forall x <- orders[1..] :: x in s.table && s.Pending(x) && m.buckets[s.table[x]] == s.buckets[s.table[x]]
  {
    hide Noted, Receiver.Listed, Receiver.BucketsOk;
    var rest := orders[1..];
    forall x <- rest ensures x != orders[0] && s.Pending(x) {
      var k :| 0 <= k < |rest| && rest[k] == x;
      assert orders[k + 1] == x;
    }
  }

  lemma WalkUnfolds(cfg: Settings, s: Receiver, orders: seq<int>, now: int, delay: int -> int)
    requires s.TableOk() && orders != [] && forall o <- orders :: o in s.table
    ensures s.Pending(orders[0])
    ensures var o := orders[0];
      var m := NackStep(cfg, s, s.table[o], now, delay(o));
      && m.TableOk() && m.table == s.table
      && NackAll(cfg, s, orders, now, delay) == NackAll(cfg, m, orders[1..], now, delay)
    ensures var o, b := orders[0], s.buckets[s.table[orders[0]]];
      MessagesFor(cfg, s, orders, now, delay)
           == (if SendsNack(cfg, b, now, delay(o)) then [NackMessage(b)] else [])
              + MessagesFor(cfg, s, orders[1..], now, delay)
  {
    hide NackStep, NackMessage, SendsNack, Assembly.Ok, Receiver.Listed;
    assert s.Pending(orders[0]);
    NackKeepsTable(cfg, s, orders[0], now, delay(orders[0]));
  }

  /** The walk sends the messages of its orders one after the other, and notes each. */
  lemma {:induction false} WalkNotes(cfg: Settings, s: Receiver, orders: seq<int>, now: int, delay: int -> int)
    requires s.TableOk() && StrictlyAscending(orders) && forall o <- orders :: o in s.table
    ensures var t := NackAll(cfg, s, orders, now, delay);
      && t.nacks == s.nacks + MessagesFor(cfg, s, orders, now, delay) && |t.buckets| == |s.buckets|
      && forall i | 0 <= i < |s.buckets| :: t.buckets[i] == AfterWalk(cfg, s, orders, now, delay, i)
    decreases |orders|
  {
    hide NackStep, NackMessage, SendsNack, Assembly.Ok, Receiver.Listed;
    if orders == [] {
      assert s.nacks + [] == s.nacks;
    } else {
      hide NackAll, MessagesFor, AfterWalk, Noted, Receiver.BucketsOk, Receiver.Pending;
      WalkUnfolds(cfg, s, orders, now, delay);
      var o, rest := orders[0], orders[1..];
      StepNotes(cfg, s, o, now, delay(o));
      var m := NackStep(cfg, s, s.table[o], now, delay(o));
      OthersSame(cfg, s, m, orders, now, delay(o));
      WalkNotes(cfg, m, rest, now, delay);
      SameMessages(cfg, s, m, rest, now, delay);
      forall i | 0 <= i < |s.buckets|
        ensures NackAll(cfg, s, orders, now, delay).buckets[i] == AfterWalk(cfg, s, orders, now, delay, i)
      {
        WalkStep(cfg, s, m, orders, now, delay, i);
      }
    }
  }

  lemma WalkStep(cfg: Settings, s: Receiver, m: Receiver, orders: seq<int>, now: int, delay: int -> int, i: nat)
    requires s.TableOk() && m.TableOk() && orders != [] && orders[0] in s.table && s.Pending(orders[0])
    requires orders[0] !in orders[1..] && i < |s.buckets|
    requires var k := s.table[orders[0]];
      m.buckets == s.buckets[k := Noted(cfg, s.buckets[k], now, delay(orders[0]))]
    ensures AfterWalk(cfg, m, orders[1..], now, delay, i) == AfterWalk(cfg, s, orders, now, delay, i)
  {
    hide SendsNack, Assembly.Ok, Receiver.BucketsOk;
    if s.buckets[i].active { assert s.Listed(i); }
  }

  lemma {:induction false} DeliverAllTimings(s: Receiver, orders: seq<int>)
    requires s.TableOk() && StrictlyAscending(orders) && forall o <- orders :: o in s.table
    ensures DeliverAll(s, orders).nacks == s.nacks
    decreases |orders|
  {
    if orders != [] {
      assert s.Pending(orders[0]);
      DeliverKeepsTable(s, orders[0]);
      hide Receiver.Listed, DeliveredFrame, Assembly.Ok;
      DeliverAllTimings(DeliverStep(s, s.table[orders[0]]), orders[1..]);
    }
  }

  lemma {:induction false} InMessages(cfg: Settings, s: Receiver, orders: seq<int>, now: int, delay: int -> int, o: int)
    requires s.TableOk() && (forall x <- orders :: x in s.table) && o in orders
    ensures s.Pending(o)
    ensures var b := s.buckets[s.table[o]];
      SendsNack(cfg, b, now, delay(o)) ==> NackMessage(b) in MessagesFor(cfg, s, orders, now, delay)
  {
    hide SendsNack, NackMessage, Assembly.Ok, Receiver.Listed;
    assert s.Pending(o);
    if o != orders[0] { InMessages(cfg, s, orders[1..], now, delay, o); }
  }

  /** A sweep sends exactly the messages of the pending buckets that are to be NACKed, by ascending number, and
      counts each at its bucket; other buckets keep their bookkeeping. */
  lemma SweepAsks(cfg: Settings, s: Receiver, now: int, delay: int -> int, i: nat)
    requires s.TableOk() && i < |s.buckets|
    ensures forall o <- Ascending(s.table.Keys) :: o in s.table
    ensures var t, messages := Sweep(cfg, s, now, delay), MessagesFor(cfg, s, Ascending(s.table.Keys), now, delay);
      && t.nacks == s.nacks + messages && |t.buckets| == |s.buckets|
      && var b := s.buckets[i];
         if b.active then
           && t.buckets[i].timing == Noted(cfg, b, now, delay(b.order)).timing
           && (SendsNack(cfg, b, now, delay(b.order)) ==> NackMessage(b) in messages)
         else t.buckets[i].timing == b.timing
  {
    hide NackDue, NackMessage, Assembly.Ok, Sweep, DeliverAll, Ascending, Due, NackAll, MessagesFor;
    var orders, n := Ascending(s.table.Keys), Nacked(cfg, s, now, delay);
    AscendingIs(s.table.Keys);
    SweepIs(cfg, s, now, delay);
    NackedOnly(cfg, s, now, delay);
    WalkIs(cfg, s, now, delay);
    DeliverAllTimings(n, Batch(cfg, s, now));
    DeliverAllRetires(n, Batch(cfg, s, now));
    assert Retired(n.buckets[i], Sweep(cfg, s, now, delay).buckets[i]);
    if s.buckets[i].active {
      assert s.Listed(i);
      InMessages(cfg, s, orders, now, delay, s.buckets[i].order);
    }
  }

  /** The first half of the sweep, also when NACKs are switched off. */
  lemma WalkIs(cfg: Settings, s: Receiver, now: int, delay: int -> int)
    requires s.TableOk()
    ensures StrictlyAscending(Ascending(s.table.Keys)) && forall o :: o in Ascending(s.table.Keys) <==> o in s.table
    ensures var t, orders := Nacked(cfg, s, now, delay), Ascending(s.table.Keys);
      && t.nacks == s.nacks + MessagesFor(cfg, s, orders, now, delay) && |t.buckets| == |s.buckets|
      && forall i | 0 <= i < |s.buckets| :: t.buckets[i] == AfterWalk(cfg, s, orders, now, delay, i)
  {
    hide Ascending, NackAll, NackMessage, Assembly.Ok, MessagesFor, Receiver.Pending, Receiver.Listed;
    AscendingIs(s.table.Keys);
    if cfg.maxNackRetries == 0 { NoneSent(cfg, s, Ascending(s.table.Keys), now, delay); }
    else { WalkNotes(cfg, s, Ascending(s.table.Keys), now, delay); }
  }

  lemma {:induction false} NoneSent(cfg: Settings, s: Receiver, orders: seq<int>, now: int, delay: int -> int)
    requires s.TableOk() && cfg.maxNackRetries == 0 && forall o <- orders :: o in s.table
    ensures MessagesFor(cfg, s, orders, now, delay) == []
  {
    hide NackMessage, Assembly.Ok, Receiver.Listed;
    if orders != [] {
      assert s.Pending(orders[0]);
      NoneSent(cfg, s, orders[1..], now, delay);
    }
  }
}
