/** The byte limit and the age limit of the retention store. */
module RetentionLimits {
  import opened Wire
  import opened Retention
  import opened RetentionRuns

  // ----- the byte limit -----

  lemma NoRecordNoEntry(st: Store)
    requires Covered(st) && st.order == []
    ensures forall key <- st.buffer :: false
  {
    assert forall key <- st.buffer :: Ticket(key, st.buffer[key].generation) in st.order;
  }

  /** An eviction pass leaves room for what was asked, and loses at least the size of any entry it took. */
  lemma {:induction false} EvictMakesRoom(lim: Limits, st: Store, log: seq<Sent>, now: int, required: nat, key: Key)
    requires Agree(st, log) && required <= lim.maxBytes
    ensures var u := Evict(lim, st, now, required);
      && u.bytes <= lim.maxBytes - required && 0 <= u.bytes <= st.bytes
      && (key in u.buffer ==> key in st.buffer && u.buffer[key] == st.buffer[key])
      && (key in st.buffer && key !in u.buffer ==> u.bytes <= st.bytes - |st.buffer[key].data|)
    decreases |st.order|
  {
    if st.order == [] {
      NoRecordNoEntry(st);
    } else if !st.Live(st.order[0]) {
      DropStaleAgrees(st, log);
      hide Agree;
      EvictMakesRoom(lim, DropStale(st), log, now, required, key);
    } else {
      DropOldestAgrees(st, log);
      hide Agree;
      EvictMakesRoom(lim, DropOldest(st), log, now, required, key);
    }
  }

  /** The limit holds after a retain exactly when the same-key predecessor was not evicted in the same call
      or the rest left room for the whole fragment. The excess is at most the growth of the entry if the
      limit held before, and never more than either size. */
  lemma RetainLimit(lim: Limits, st: Store, log: seq<Sent>, frameNo: Word16, fragmentNo: Word16, stream: Byte,
                    data: seq<Byte>, now: int)
    requires Agree(st, log) && Retains(lim, |data|)
    ensures var key := Key(frameNo, fragmentNo);
      var before, after := SizeAt(st, key), Retain(lim, st, frameNo, fragmentNo, stream, data, now).bytes;
      var evicted := Evict(lim, st, now, Required(st, key, |data|));
      && (after <= lim.maxBytes <==>
            key !in st.buffer || key in evicted.buffer || evicted.bytes + |data| <= lim.maxBytes)
      && after <= lim.maxBytes + |data| && after <= lim.maxBytes + before
      && (st.bytes <= lim.maxBytes ==> after <= lim.maxBytes + Required(st, key, |data|))
  {
    var key := Key(frameNo, fragmentNo);
    EvictMakesRoom(lim, st, log, now, Required(st, key, |data|), key);
    hide Agree, Evict;
  }

  // ----- the byte limit, seen from the state before the call -----

  /** What the records from the j-th on hold. */
  function From(st: Store, j: nat): nat
    requires j <= |st.order|
  {
    LiveBytes(st.buffer, st.order[j..])
  }

  /** An eviction pass that has come to this record ends here. */
  predicate Stops(lim: Limits, st: Store, now: int, required: nat, j: nat)
    requires j < |st.order|
  {
    && st.Live(st.order[j]) && st.buffer[st.order[j].key].timeUs >= lim.Cutoff(now)
    && From(st, j) <= lim.maxBytes - required
  }

  function DropFront(st: Store): Store
    requires st.order != []
  {
    if st.Live(st.order[0]) then DropOldest(st) else DropStale(st)
  }

  lemma LiveAfter(st: Store, log: seq<Sent>, i: nat)
    requires Agree(st, log) && 0 < i < |st.order|
    ensures IsLive(DropFront(st).buffer, st.order[i]) == IsLive(st.buffer, st.order[i])
    ensures IsLive(st.buffer, st.order[i]) ==> DropFront(st).buffer[st.order[i].key] == st.buffer[st.order[i].key]
  {
    assert st.order[0].generation < st.order[i].generation;
    hide Faithful, QueueAgrees, LiveBytes;
  }

  /** Without its front record the store looks the same from the next one on. */
  lemma Shift(lim: Limits, st: Store, log: seq<Sent>, now: int, required: nat, i: nat)
    requires Agree(st, log) && i < |st.order| - 1
    ensures var u := DropFront(st);
      && |u.order| == |st.order| - 1 && u.order[i] == st.order[i + 1] && u.Live(u.order[i]) == st.Live(st.order[i + 1])
      && From(u, i) == From(st, i + 1) && Stops(lim, u, now, required, i) == Stops(lim, st, now, required, i + 1)
  {
    var u, rest := DropFront(st), st.order[i + 1..];
    assert u.order[i..] == rest;
    LiveAfter(st, log, i + 1);
    forall t <- rest
      ensures IsLive(u.buffer, t) == IsLive(st.buffer, t)
      ensures IsLive(u.buffer, t) ==> u.buffer[t.key] == st.buffer[t.key]
    {
      var k :| 0 <= k < |rest| && rest[k] == t;
      LiveAfter(st, log, i + 1 + k);
    }
    hide Agree, LiveBytes, DropFront, IsLive;
    LiveBytesSame(st.buffer, u.buffer, rest);
  }

  /** A pass that leaves `e` ended at record `j`, the first that stops it or the end. */
  ghost predicate EndsAt(lim: Limits, st: Store, now: int, required: nat, j: nat, e: Store) {
    && j <= |st.order| && (forall i | 0 <= i < j :: !Stops(lim, st, now, required, i))
    && (j < |st.order| ==> Stops(lim, st, now, required, j))
    && e.bytes == From(st, j) && e.order == st.order[j..]
    && forall p | 0 <= p < |st.order| && st.Live(st.order[p]) :: st.order[p].key in e.buffer <==> j <= p
  }

  /** Every pass ends at such a record, and what it leaves is what the records from there on hold. */
  lemma {:induction false} EvictStops(lim: Limits, st: Store, log: seq<Sent>, now: int, required: nat) returns (j: nat)
    requires Agree(st, log) && required <= lim.maxBytes
    ensures EndsAt(lim, st, now, required, j, Evict(lim, st, now, required))
    decreases |st.order|
  {
    hide Agree, Evict, DropFront, EndsAt, Stops;
    if st.order == [] || Stops(lim, st, now, required, 0) {
      j := 0;
      EndsNow(lim, st, log, now, required);
    } else {
      FrontAgrees(lim, st, log, now, required);
      var k := EvictStops(lim, DropFront(st), log, now, required);
      EndsLater(lim, st, log, now, required, k);
      j := k + 1;
    }
  }

  lemma EndsNow(lim: Limits, st: Store, log: seq<Sent>, now: int, required: nat)
    requires Agree(st, log) && required <= lim.maxBytes && (st.order == [] || Stops(lim, st, now, required, 0))
    ensures EndsAt(lim, st, now, required, 0, Evict(lim, st, now, required))
  {
    assert st.order[0..] == st.order;
    hide Agree, LiveBytes;
  }

  lemma EndsLater(lim: Limits, st: Store, log: seq<Sent>, now: int, required: nat, k: nat)
    requires Agree(st, log) && required <= lim.maxBytes && st.order != [] && !Stops(lim, st, now, required, 0)
    requires EndsAt(lim, DropFront(st), now, required, k, Evict(lim, DropFront(st), now, required))
    ensures EndsAt(lim, st, now, required, k + 1, Evict(lim, st, now, required))
  {
    hide Agree, Evict, DropFront, Stops, From, IsLive;
    EndLater(lim, st, log, now, required, k);
    forall i | 0 <= i < k + 1 ensures !Stops(lim, st, now, required, i)
    { NoStopLater(lim, st, log, now, required, k, i); }
    var e := Evict(lim, st, now, required);
    forall p | 0 <= p < |st.order| && st.Live(st.order[p]) ensures st.order[p].key in e.buffer <==> k + 1 <= p {
      RecordLater(lim, st, log, now, required, k, p);
    }
  }

  lemma EndLater(lim: Limits, st: Store, log: seq<Sent>, now: int, required: nat, k: nat)
    requires Agree(st, log) && required <= lim.maxBytes && st.order != [] && !Stops(lim, st, now, required, 0)
    requires EndsAt(lim, DropFront(st), now, required, k, Evict(lim, DropFront(st), now, required))
    ensures k + 1 <= |st.order| && (k + 1 < |st.order| ==> Stops(lim, st, now, required, k + 1))
    ensures Evict(lim, st, now, required).bytes == From(st, k + 1)
    ensures Evict(lim, st, now, required).order == st.order[k + 1..]
  {
    FrontAgrees(lim, st, log, now, required);
    hide Agree, Evict, DropFront, Stops, From, IsLive;
    ShiftEnd(lim, st, log, now, required, k);
  }

  lemma NoStopLater(lim: Limits, st: Store, log: seq<Sent>, now: int, required: nat, k: nat, i: nat)
    requires Agree(st, log) && required <= lim.maxBytes && st.order != [] && !Stops(lim, st, now, required, 0)
    requires EndsAt(lim, DropFront(st), now, required, k, Evict(lim, DropFront(st), now, required)) && i <= k
    ensures i < |st.order| && !Stops(lim, st, now, required, i)
  {
    hide Agree, Evict, DropFront, Stops, From, IsLive;
    FrontAgrees(lim, st, log, now, required);
    if i > 0 { Shift(lim, st, log, now, required, i - 1); }
  }

  lemma RecordLater(lim: Limits, st: Store, log: seq<Sent>, now: int, required: nat, k: nat, p: nat)
    requires Agree(st, log) && required <= lim.maxBytes && st.order != [] && !Stops(lim, st, now, required, 0)
    requires EndsAt(lim, DropFront(st), now, required, k, Evict(lim, DropFront(st), now, required))
    requires p < |st.order| && st.Live(st.order[p])
    ensures st.order[p].key in Evict(lim, st, now, required).buffer <==> k + 1 <= p
  {
    FrontAgrees(lim, st, log, now, required);
    var u := DropFront(st);
    hide Agree, Evict, DropFront, Stops, From, IsLive;
    if p == 0 {
      FrontGone(lim, st, log, now, required);
    } else {
      Shift(lim, st, log, now, required, p - 1);
      assert u.Live(u.order[p - 1]);
    }
  }

  lemma FrontAgrees(lim: Limits, st: Store, log: seq<Sent>, now: int, required: nat)
    requires Agree(st, log) && st.order != [] && !Stops(lim, st, now, required, 0) && required <= lim.maxBytes
    ensures var u := DropFront(st);
      Agree(u, log) && |u.order| == |st.order| - 1 && u.order == st.order[1..]
          && Evict(lim, st, now, required) == Evict(lim, u, now, required)
  {
    assert st.order[0..] == st.order;
    if st.Live(st.order[0]) { DropOldestAgrees(st, log); } else { DropStaleAgrees(st, log); }
    hide Faithful, Covered, QueueAgrees, LiveBytes;
  }

  lemma FrontGone(lim: Limits, st: Store, log: seq<Sent>, now: int, required: nat)
    requires Agree(st, log) && st.order != [] && !Stops(lim, st, now, required, 0) && required <= lim.maxBytes
    requires st.Live(st.order[0])
    ensures st.order[0].key !in Evict(lim, st, now, required).buffer
  {
    FrontAgrees(lim, st, log, now, required);
    var u, key := DropFront(st), st.order[0].key;
    assert key !in u.buffer;
    hide Agree, DropFront;
    EvictMakesRoom(lim, u, log, now, required, key);
  }

  lemma ShiftEnd(lim: Limits, st: Store, log: seq<Sent>, now: int, required: nat, k: nat)
    requires Agree(st, log) && st.order != [] && k <= |st.order| - 1
    ensures var u := DropFront(st);
      && |u.order| == |st.order| - 1 && From(u, k) == From(st, k + 1)
      && (k < |u.order| ==> Stops(lim, u, now, required, k) == Stops(lim, st, now, required, k + 1))
  {
    if k < |st.order| - 1 {
      Shift(lim, st, log, now, required, k);
    } else {
      var u := DropFront(st);
      assert |u.order| == k && u.order[k..] == [] == st.order[k + 1..];
    }
  }

  /** Later records hold no more, and less by any live entry in between. */
  lemma {:induction false} FromFalls(st: Store, a: nat, b: nat)
    requires a <= b <= |st.order|
    ensures From(st, b) <= From(st, a)
    ensures a < b && st.Live(st.order[a]) ==> From(st, b) + |st.buffer[st.order[a].key].data| <= From(st, a)
    decreases b - a
  {
    if a < b {
      FromFalls(st, a + 1, b);
      assert st.order[a..][1..] == st.order[a + 1..] && st.order[a..][0] == st.order[a];
    }
  }

  /** Some record behind the p-th, live and fresh, where the pass could end with too little room left for the
      whole fragment, though with enough for its growth over the entry that was credited. */
  predicate Shortfall(lim: Limits, st: Store, now: int, p: nat, size: nat, required: nat) {
    exists j | p < j < |st.order| ::
      && st.Live(st.order[j]) && st.buffer[st.order[j].key].timeUs >= lim.Cutoff(now)
      && lim.maxBytes - size < From(st, j) <= lim.maxBytes - required
  }

  /** Exactly when a retain ends above the limit, by the state before it: an entry of the same key exists, no
      record up to its own ends the pass, and one behind it ends it too early. */
  lemma LimitExceededExactly(lim: Limits, st: Store, log: seq<Sent>, frameNo: Word16, fragmentNo: Word16, stream: Byte,
                             data: seq<Byte>, now: int, p: nat)
    requires Agree(st, log) && Retains(lim, |data|) && Key(frameNo, fragmentNo) in st.buffer
    requires p < |st.order|
    requires st.order[p] == Ticket(Key(frameNo, fragmentNo), st.buffer[Key(frameNo, fragmentNo)].generation)
    ensures var required := Required(st, Key(frameNo, fragmentNo), |data|);
      Retain(lim, st, frameNo, fragmentNo, stream, data, now).bytes > lim.maxBytes <==>
        (forall i | 0 <= i <= p :: !Stops(lim, st, now, required, i)) && Shortfall(lim, st, now, p, |data|, required)
  {
    var key := Key(frameNo, fragmentNo);
    var required := Required(st, key, |data|);
    EvictMakesRoom(lim, st, log, now, required, key);
    var j := EvictStops(lim, st, log, now, required);
    assert st.Live(st.order[p]) && st.order[p].key == key;
    hide Agree, Evict, From;
    if j < |st.order| {
      forall i | j <= i < |st.order| ensures From(st, i) <= From(st, j) { FromFalls(st, j, i); }
    }
    assert j == |st.order| ==> From(st, j) == 0 by { FromEnd(st); }
    assert key in Evict(lim, st, now, required).buffer <==> j <= p;
    hide Stops;
    ShortfallAt(lim, st, now, p, |data|, required, j);
  }

  lemma FromEnd(st: Store)
    ensures From(st, |st.order|) == 0
  {
  }

  /** Among the records behind the p-th the first that ends the pass decides. */
  lemma ShortfallAt(lim: Limits, st: Store, now: int, p: nat, size: nat, required: nat, j: nat)
    requires p < |st.order| && j <= |st.order| && required <= size <= lim.maxBytes
    requires forall i | 0 <= i < j :: !Stops(lim, st, now, required, i)
    requires j < |st.order| ==> Stops(lim, st, now, required, j)
    ensures (forall i | 0 <= i <= p :: !Stops(lim, st, now, required, i)) && Shortfall(lim, st, now, p, size, required)
      <==> p < j < |st.order| && From(st, j) > lim.maxBytes - size
  {
    hide From;
    if Shortfall(lim, st, now, p, size, required) && p < j {
      var k :| p < k < |st.order| && st.Live(st.order[k]) && st.buffer[st.order[k].key].timeUs >= lim.Cutoff(now)
        && lim.maxBytes - size < From(st, k) <= lim.maxBytes - required;
      assert Stops(lim, st, now, required, k);
      FromFalls(st, j, k);
    }
  }

  /** From a state within the limit: the retain exceeds it exactly if the entry grows and behind its record
      there is such a shortfall. A key that is not retained yet never exceeds it. */
  lemma LimitKept(lim: Limits, st: Store, log: seq<Sent>, frameNo: Word16, fragmentNo: Word16, stream: Byte,
                  data: seq<Byte>, now: int)
    requires Agree(st, log) && Retains(lim, |data|) && st.bytes <= lim.maxBytes
    ensures var key, after := Key(frameNo, fragmentNo), Retain(lim, st, frameNo, fragmentNo, stream, data, now).bytes;
      if key !in st.buffer then after <= lim.maxBytes
      else
        forall p | 0 <= p < |st.order| && st.order[p] == Ticket(key, st.buffer[key].generation) ::
          (after > lim.maxBytes <==>
             var before := |st.buffer[key].data|;
             before < |data| && Shortfall(lim, st, now, p, |data|, |data| - before))
  {
    var key := Key(frameNo, fragmentNo);
    if key !in st.buffer {
      RetainLimit(lim, st, log, frameNo, fragmentNo, stream, data, now);
    } else {
      forall p | 0 <= p < |st.order| && st.order[p] == Ticket(key, st.buffer[key].generation)
        ensures Retain(lim, st, frameNo, fragmentNo, stream, data, now).bytes > lim.maxBytes <==>
                  |st.buffer[key].data| < |data|
                  && Shortfall(lim, st, now, p, |data|, |data| - |st.buffer[key].data|)
      {
        LimitExceededExactly(lim, st, log, frameNo, fragmentNo, stream, data, now, p);
        WithinLimit(lim, st, log, now, p, |data|);
      }
    }
  }

  /** Within the limit only growth can fall short, and then nothing up to the predecessor ends the pass. */
  lemma WithinLimit(lim: Limits, st: Store, log: seq<Sent>, now: int, p: nat, size: nat)
    requires Agree(st, log) && st.bytes <= lim.maxBytes && p < |st.order| && st.Live(st.order[p])
    requires size <= lim.maxBytes
    ensures var before := |st.buffer[st.order[p].key].data|;
      var required := if size > before then size - before else 0;
      && (Shortfall(lim, st, now, p, size, required) ==> before < size)
      && (Shortfall(lim, st, now, p, size, required) ==> forall i | 0 <= i <= p :: !Stops(lim, st, now, required, i))
  {
    hide From, LiveBytes, Agree;
    var before := |st.buffer[st.order[p].key].data|;
    var required := if size > before then size - before else 0;
    FromStart(st, log);
    if Shortfall(lim, st, now, p, size, required) {
      var j :| p < j < |st.order| && st.Live(st.order[j]) && st.buffer[st.order[j].key].timeUs >= lim.Cutoff(now)
        && lim.maxBytes - size < From(st, j) <= lim.maxBytes - required;
      FromFalls(st, p, j);
      FromFalls(st, 0, p);
      NoneStops(lim, st, now, p, required);
    }
  }

  lemma NoneStops(lim: Limits, st: Store, now: int, p: nat, required: nat)
    requires p < |st.order| && From(st, p) > lim.maxBytes - required
    ensures forall i | 0 <= i <= p :: !Stops(lim, st, now, required, i)
  {
    hide From;
    forall i | 0 <= i <= p ensures !Stops(lim, st, now, required, i) { FromFalls(st, i, p); }
  }

  lemma FromStart(st: Store, log: seq<Sent>)
    requires Agree(st, log)
    ensures From(st, 0) == st.bytes
  {
    assert st.order[0..] == st.order;
  }

  /** The limit is indeed exceeded when the oldest entry grows and the growth does not fit: its old size is
      credited first, and then the entry itself is what the pass evicts. */
  lemma LimitExceeded(lim: Limits, x: seq<Byte>, y: seq<Byte>, z: seq<Byte>)
    requires lim.retentionMs > 0 && |x| < |z| <= lim.maxBytes
    requires |x| + |y| <= lim.maxBytes < |y| + |z| && |y| + |z| - |x| <= lim.maxBytes
    ensures var a := Retain(lim, EMPTY, 0, 0, 0, x, 0);
      var b := Retain(lim, a, 0, 1, 0, y, 0);
      var c := Retain(lim, b, 0, 0, 0, z, 0);
      b.bytes == |x| + |y| <= lim.maxBytes && c.bytes == |y| + |z|
  {
    var a := Put(EMPTY, 0, 0, 0, x, 0);
    assert Retain(lim, EMPTY, 0, 0, 0, x, 0) == a;
    var b := Put(a, 0, 1, 0, y, 0);
    assert Evict(lim, a, 0, |y|) == a;
    assert b.order == [Ticket(Key(0, 0), 1), Ticket(Key(0, 1), 2)] && b.Live(b.order[0]);
    var evicted := DropOldest(b);
    assert evicted.order == [Ticket(Key(0, 1), 2)] && evicted.Live(evicted.order[0]);
    assert Evict(lim, evicted, 0, |z| - |x|) == evicted;
    assert Evict(lim, b, 0, |z| - |x|) == evicted;
  }

  // ----- age -----

  /** Live records stand in the order of their entries' times. */
  ghost predicate InTimeOrder(buffer: map<Key, Retained>, order: seq<Ticket>) {
    forall i, j | 0 <= i < j < |order| && IsLive(buffer, order[i]) && IsLive(buffer, order[j]) ::
      buffer[order[i].key].timeUs <= buffer[order[j].key].timeUs
  }

  ghost predicate Aged(st: Store, clock: int) {
    && InTimeOrder(st.buffer, st.order)
    && forall key <- st.buffer :: st.buffer[key].timeUs <= clock
  }

  lemma InTimeOrderTail(a: map<Key, Retained>, b: map<Key, Retained>, order: seq<Ticket>)
    requires order != [] && InTimeOrder(a, order)
    requires forall t :: IsLive(b, t) ==> IsLive(a, t) && b[t.key] == a[t.key]
    ensures InTimeOrder(b, order[1..])
  {
  }

  lemma InTimeOrderAppend(a: map<Key, Retained>, b: map<Key, Retained>, order: seq<Ticket>, t: Ticket)
    requires InTimeOrder(a, order)
    requires forall x <- order :: IsLive(b, x) ==> IsLive(a, x) && b[x.key] == a[x.key]
    requires IsLive(b, t) && forall key <- a :: a[key].timeUs <= b[t.key].timeUs
    ensures InTimeOrder(b, order + [t])
  {
  }

  /** If the oldest live entry is fresh, all are. */
  lemma OldestFresh(st: Store, cutoff: int)
    requires Covered(st) && InTimeOrder(st.buffer, st.order) && st.order != [] && st.Live(st.order[0])
    requires st.buffer[st.order[0].key].timeUs >= cutoff
    ensures forall key <- st.buffer :: st.buffer[key].timeUs >= cutoff
  {
    forall key <- st.buffer ensures st.buffer[key].timeUs >= cutoff {
      var i := ExactlyOneRecord(st, key);
    }
  }

  /** With a clock that does not go back, nothing older than the cutoff survives an eviction pass. */
  lemma {:induction false} EvictLeavesFresh(lim: Limits, st: Store, log: seq<Sent>, clock: int, now: int, required: nat)
    requires Agree(st, log) && Aged(st, clock)
    ensures var u := Evict(lim, st, now, required);
      Aged(u, clock) && forall key <- u.buffer :: u.buffer[key].timeUs >= lim.Cutoff(now)
    decreases |st.order|
  {
    hide InTimeOrder, LiveBytes, Faithful, QueueAgrees, OverLimit;
    if st.order == [] {
      NoRecordNoEntry(st);
    } else if !st.Live(st.order[0]) {
      DropStaleAgrees(st, log);
      InTimeOrderTail(st.buffer, st.buffer, st.order);
      EvictLeavesFresh(lim, DropStale(st), log, clock, now, required);
    } else if st.buffer[st.order[0].key].timeUs >= lim.Cutoff(now) && !OverLimit(lim, st, required) {
      OldestFresh(st, lim.Cutoff(now));
    } else {
      DropOldestAgrees(st, log);
      InTimeOrderTail(st.buffer, DropOldest(st).buffer, st.order);
      EvictLeavesFresh(lim, DropOldest(st), log, clock, now, required);
    }
  }

  /** With room for what was asked, a pass evicts by age alone: an entry goes exactly if it was retained more than
      `retentionMs` milliseconds ago, and what stays is unchanged. */
  lemma {:induction false} EvictByAge(lim: Limits, st: Store, log: seq<Sent>, clock: int, now: int, required: nat,
                                      key: Key)
    requires Agree(st, log) && Aged(st, clock) && st.bytes + required <= lim.maxBytes
    ensures var u := Evict(lim, st, now, required);
      && (key in u.buffer <==> key in st.buffer && st.buffer[key].timeUs >= now - 1000 * lim.retentionMs)
      && (key in u.buffer ==> u.buffer[key] == st.buffer[key])
    decreases |st.order|
  {
    hide InTimeOrder, LiveBytes, Faithful, QueueAgrees;
    if st.order == [] {
      NoRecordNoEntry(st);
    } else if !st.Live(st.order[0]) {
      DropStaleAgrees(st, log);
      InTimeOrderTail(st.buffer, st.buffer, st.order);
      EvictByAge(lim, DropStale(st), log, clock, now, required, key);
    } else if st.buffer[st.order[0].key].timeUs >= lim.Cutoff(now) {
      OldestFresh(st, lim.Cutoff(now));
    } else {
      DropOldestAgrees(st, log);
      InTimeOrderTail(st.buffer, DropOldest(st).buffer, st.order);
      EvictByAge(lim, DropOldest(st), log, clock, now, required, key);
    }
  }

  lemma PutAged(st: Store, log: seq<Sent>, clock: int, frameNo: Word16, fragmentNo: Word16, stream: Byte,
                data: seq<Byte>, now: int)
    requires Agree(st, log) && Aged(st, clock) && clock <= now
    ensures Aged(Put(st, frameNo, fragmentNo, stream, data, now), now)
  {
    var u, key := Put(st, frameNo, fragmentNo, stream, data, now), Key(frameNo, fragmentNo);
    forall t <- st.order ensures u.Live(t) ==> st.Live(t) && u.buffer[t.key] == st.buffer[t.key]
    { assert Known(log, t); }
    hide Agree, Known, InTimeOrder;
    InTimeOrderAppend(st.buffer, u.buffer, st.order, Ticket(key, u.generation));
  }

  /** Retaining with a clock that does not go back keeps the entries in the order of their times. */
  lemma RetainAged(lim: Limits, st: Store, log: seq<Sent>, clock: int, frameNo: Word16, fragmentNo: Word16,
                   stream: Byte, data: seq<Byte>, now: int)
    requires Agree(st, log) && Aged(st, clock) && clock <= now
    ensures Aged(Retain(lim, st, frameNo, fragmentNo, stream, data, now), now)
  {
    hide Agree, InTimeOrder, Put, Evict;
    if Retains(lim, |data|) {
      var required := Required(st, Key(frameNo, fragmentNo), |data|);
      EvictLeavesFresh(lim, st, log, clock, now, required);
      EvictAgrees(lim, st, now, required, log);
      PutAged(Evict(lim, st, now, required), log, clock, frameNo, fragmentNo, stream, data, now);
    }
  }
}
