/** What every run of sends, NACKs and retransmits keeps about the retention store. */
module RetentionRuns {
  import opened Wire
  import opened Retention

  // ----- agreement of the four structures -----

  /** What was sent under a generation: the generations 1, 2, ... number the entries of this history. */
  datatype Sent = Sent(key: Key, stream: Byte, data: seq<Byte>)

  predicate Rising(order: seq<Ticket>) {
    forall i, j | 0 <= i < j < |order| :: order[i].generation < order[j].generation
  }

  predicate DistinctGenerations(q: seq<Ticket>) {
    forall i, j | 0 <= i < j < |q| :: q[i].generation != q[j].generation
  }

  predicate Known(log: seq<Sent>, t: Ticket) {
    1 <= t.generation <= |log| && log[t.generation - 1].key == t.key
  }

  predicate Genuine(log: seq<Sent>, key: Key, e: Retained) {
    1 <= e.generation <= |log| && log[e.generation - 1] == Sent(key, e.stream, e.data)
    && key == Key(e.frameNo, e.fragmentNo)
  }

  /** Sum of the sizes of the entries that the records lead to. */
  function LiveBytes(buffer: map<Key, Retained>, order: seq<Ticket>): nat {
    if order == [] then 0
    else (if IsLive(buffer, order[0]) then |buffer[order[0].key].data| else 0) + LiveBytes(buffer, order[1..])
  }

  predicate InQueue(st: Store, g: nat) { exists t <- st.queue :: t.generation == g && st.Live(t) }

  /** Records and requests are known to the history, each entry is what was sent under its generation ... */
  ghost predicate Faithful(st: Store, log: seq<Sent>) {
    && |log| == st.generation
    && (forall t <- st.order :: Known(log, t))
    && (forall t <- st.queue :: Known(log, t))
    && (forall key <- st.buffer :: Genuine(log, key, st.buffer[key]))
  }

  /** ... every entry has an age record (exactly one, as generations rise) ... */
  ghost predicate Covered(st: Store) {
    Rising(st.order) && forall key <- st.buffer :: Ticket(key, st.buffer[key].generation) in st.order
  }

  /** ... the set of queued generations is that of the queued requests still live, all distinct ... */
  ghost predicate QueueAgrees(st: Store) {
    DistinctGenerations(st.queue) && forall g: nat :: g in st.queued <==> InQueue(st, g)
  }

  ghost predicate Agree(st: Store, log: seq<Sent>) {
    // ... and the byte counter is the sum of the live entries' sizes.
    Faithful(st, log) && Covered(st) && QueueAgrees(st) && st.bytes == LiveBytes(st.buffer, st.order)
  }

  // ----- sums over records -----

  lemma {:induction false} LiveBytesSame(a: map<Key, Retained>, b: map<Key, Retained>, order: seq<Ticket>)
    requires forall t <- order :: IsLive(a, t) == IsLive(b, t) && (IsLive(a, t) ==> |a[t.key].data| == |b[t.key].data|)
    ensures LiveBytes(a, order) == LiveBytes(b, order)
  {
    if order != [] {
      assert order[0] in order;
      hide IsLive;
      LiveBytesSame(a, b, order[1..]);
    }
  }

  lemma {:induction false} LiveBytesAppend(buffer: map<Key, Retained>, order: seq<Ticket>, t: Ticket)
    ensures LiveBytes(buffer, order + [t])
         == LiveBytes(buffer, order) + if IsLive(buffer, t) then |buffer[t.key].data| else 0
  {
    hide IsLive;
    if order == [] {
      assert order + [t] == [t];
    } else {
      LiveBytesAppend(buffer, order[1..], t);
      assert (order + [t])[1..] == order[1..] + [t];
    }
  }

  /** Replacing or removing one entry takes its size out of the sum: it has one record. */
  lemma {:induction false} LiveBytesWithout(a: map<Key, Retained>, b: map<Key, Retained>, order: seq<Ticket>, key: Key)
    requires Rising(order) && key in a && Ticket(key, a[key].generation) in order
    requires forall t <- order :: !IsLive(b, Ticket(key, t.generation))
    requires forall k: Key | k != key :: (k in a <==> k in b) && (k in a ==> a[k] == b[k])
    ensures LiveBytes(a, order) == LiveBytes(b, order) + |a[key].data|
  {
    var t := order[0];
    if t == Ticket(key, a[key].generation) {
      LiveBytesSame(a, b, order[1..]);
    } else {
      LiveBytesWithout(a, b, order[1..], key);
    }
  }

  // ----- eviction -----

  /** The front record goes; if it was stale nothing else changes. */
  function DropStale(st: Store): Store
    requires st.order != []
  {
    st.(order := st.order[1..])
  }

  lemma DropStaleAgrees(st: Store, log: seq<Sent>)
    requires Agree(st, log) && st.order != [] && !st.Live(st.order[0])
    ensures Agree(DropStale(st), log)
  {
    var u := DropStale(st);
    hide Known, Genuine, DistinctGenerations;
    assert forall g: nat :: InQueue(u, g) <==> InQueue(st, g);
  }

  lemma DropOldestFaithful(st: Store, log: seq<Sent>)
    requires Faithful(st, log) && Covered(st) && st.order != [] && st.Live(st.order[0])
    ensures Faithful(DropOldest(st), log) && Covered(DropOldest(st))
  {
    hide Known, Genuine;
    var t, u := st.order[0], DropOldest(st);
    forall key <- u.buffer ensures Ticket(key, u.buffer[key].generation) in u.order {
      assert Ticket(key, st.buffer[key].generation) in st.order && Ticket(key, st.buffer[key].generation) != t;
    }
  }

  lemma DropOldestQueue(st: Store, log: seq<Sent>)
    requires Faithful(st, log) && QueueAgrees(st) && st.order != [] && st.Live(st.order[0])
    ensures QueueAgrees(DropOldest(st))
  {
    var t, u := st.order[0], DropOldest(st);
    assert Known(log, t);
    hide Genuine, DistinctGenerations;
    forall q <- st.queue
      ensures u.Live(q) <==> st.Live(q) && q.generation != t.generation
    {
      assert Known(log, q);
    }
    hide IsLive, Known;
    forall g: nat ensures g in u.queued <==> InQueue(u, g) {
      assert g in st.queued <==> InQueue(st, g);
    }
  }

  lemma DropOldestAgrees(st: Store, log: seq<Sent>)
    requires Agree(st, log) && st.order != [] && st.Live(st.order[0])
    ensures Agree(DropOldest(st), log)
    ensures DropOldest(st).bytes == st.bytes - |st.buffer[st.order[0].key].data|
  {
    var t, u := st.order[0], DropOldest(st);
    DropOldestFaithful(st, log);
    DropOldestQueue(st, log);
    hide Known, Genuine, InQueue, QueueAgrees, Faithful;
    assert LiveBytes(st.buffer, st.order) == |st.buffer[t.key].data| + LiveBytes(st.buffer, st.order[1..]);
    LiveBytesSame(st.buffer, u.buffer, st.order[1..]);
  }

  lemma {:induction false} EvictAgrees(lim: Limits, st: Store, now: int, required: nat, log: seq<Sent>)
    requires Agree(st, log)
    ensures Agree(Evict(lim, st, now, required), log)
    ensures Evict(lim, st, now, required).generation == st.generation
    decreases |st.order|
  {
    hide Agree, OverLimit;
    if st.order != [] {
      if !st.Live(st.order[0]) {
        DropStaleAgrees(st, log);
        EvictAgrees(lim, DropStale(st), now, required, log);
      } else {
        DropOldestAgrees(st, log);
        EvictAgrees(lim, DropOldest(st), now, required, log);
      }
    }
  }

  // ----- retaining -----

  lemma PutFaithful(st: Store, log: seq<Sent>, frameNo: Word16, fragmentNo: Word16, stream: Byte, data: seq<Byte>,
                    now: int)
    requires Faithful(st, log) && Covered(st)
    ensures var u := Put(st, frameNo, fragmentNo, stream, data, now);
      Faithful(u, log + [Sent(Key(frameNo, fragmentNo), stream, data)]) && Covered(u)
  {
    var u, log' := Put(st, frameNo, fragmentNo, stream, data, now),
        log + [Sent(Key(frameNo, fragmentNo), stream, data)];
    forall t <- u.order ensures Known(log', t) { assert t in st.order ==> Known(log, t); }
    forall t <- u.queue ensures Known(log', t) { assert Known(log, t); }
    forall key <- u.buffer ensures Genuine(log', key, u.buffer[key]) {
      assert key in st.buffer ==> Genuine(log, key, st.buffer[key]);
    }

    forall i | 0 <= i < |st.order| ensures st.order[i].generation <= st.generation { assert Known(log, st.order[i]); }
  }

  /** When requests of some generations lose their entry, those generations leave the set. */
  lemma QueueWithout(st: Store, u: Store, gone: set<nat>)
    requires QueueAgrees(st) && u.queue == st.queue && u.queued == st.queued - gone
    requires forall q <- st.queue :: u.Live(q) <==> st.Live(q) && q.generation !in gone
    ensures QueueAgrees(u)
  {
    hide IsLive, DistinctGenerations;
    forall g: nat ensures g in u.queued <==> InQueue(u, g) {
      assert g in st.queued <==> InQueue(st, g);
    }
  }

  /** A request stays live unless it asked for the entry that was replaced. */
  lemma PutLive(st: Store, log: seq<Sent>, frameNo: Word16, fragmentNo: Word16, stream: Byte, data: seq<Byte>, now: int,
                q: Ticket)
    requires |log| == st.generation && Known(log, q)
    requires var key := Key(frameNo, fragmentNo); key in st.buffer ==> Genuine(log, key, st.buffer[key])
    ensures var key := Key(frameNo, fragmentNo);
      Put(st, frameNo, fragmentNo, stream, data, now).Live(q)
      == (st.Live(q) && !(key in st.buffer && q.generation == st.buffer[key].generation))
  {

  }

  lemma PutQueue(st: Store, log: seq<Sent>, frameNo: Word16, fragmentNo: Word16, stream: Byte, data: seq<Byte>,
                 now: int)
    requires Faithful(st, log) && QueueAgrees(st)
    ensures QueueAgrees(Put(st, frameNo, fragmentNo, stream, data, now))
  {
    hide QueueAgrees, Known, Genuine, IsLive;
    var u, key := Put(st, frameNo, fragmentNo, stream, data, now), Key(frameNo, fragmentNo);
    var gone := if key in st.buffer then {st.buffer[key].generation} else {};
    assert u.queue == st.queue && u.queued == st.queued - gone;
    forall q <- st.queue ensures u.Live(q) <==> st.Live(q) && q.generation !in gone {
      PutLive(st, log, frameNo, fragmentNo, stream, data, now, q);
    }
    hide Put, Faithful;
    QueueWithout(st, u, gone);
  }

  lemma PutBytes(st: Store, log: seq<Sent>, frameNo: Word16, fragmentNo: Word16, stream: Byte, data: seq<Byte>,
                 now: int)
    requires Faithful(st, log) && Covered(st) && st.bytes == LiveBytes(st.buffer, st.order)
    ensures var u := Put(st, frameNo, fragmentNo, stream, data, now); u.bytes == LiveBytes(u.buffer, u.order)
  {
    var u, key := Put(st, frameNo, fragmentNo, stream, data, now), Key(frameNo, fragmentNo);
    forall t <- st.order ensures !IsLive(u.buffer, Ticket(key, t.generation)) { assert Known(log, t); }
    LiveBytesAppend(u.buffer, st.order, Ticket(key, u.generation));
    hide Known, Genuine;
    if key in st.buffer {
      LiveBytesWithout(st.buffer, u.buffer, st.order, key);
    } else {
      LiveBytesSame(st.buffer, u.buffer, st.order);
    }
  }

  lemma PutAgrees(st: Store, log: seq<Sent>, frameNo: Word16, fragmentNo: Word16, stream: Byte, data: seq<Byte>,
                  now: int)
    requires Agree(st, log)
    ensures Agree(Put(st, frameNo, fragmentNo, stream, data, now), log + [Sent(Key(frameNo, fragmentNo), stream, data)])
  {
    PutFaithful(st, log, frameNo, fragmentNo, stream, data, now);
    PutQueue(st, log, frameNo, fragmentNo, stream, data, now);
    PutBytes(st, log, frameNo, fragmentNo, stream, data, now);
  }

  /** What was sent under each generation after a fragment was or was not retained. */
  function LogAfter(lim: Limits, log: seq<Sent>, frameNo: Word16, fragmentNo: Word16, stream: Byte,
                    data: seq<Byte>): seq<Sent> {
    if Retains(lim, |data|) then log + [Sent(Key(frameNo, fragmentNo), stream, data)] else log
  }

  lemma RetainAgrees(lim: Limits, st: Store, log: seq<Sent>, frameNo: Word16, fragmentNo: Word16, stream: Byte,
                     data: seq<Byte>, now: int)
    requires Agree(st, log)
    ensures Agree(Retain(lim, st, frameNo, fragmentNo, stream, data, now),
                  LogAfter(lim, log, frameNo, fragmentNo, stream, data))
  {
    hide Agree, Put, Evict;
    if Retains(lim, |data|) {
      var required := Required(st, Key(frameNo, fragmentNo), |data|);
      EvictAgrees(lim, st, now, required, log);
      PutAgrees(Evict(lim, st, now, required), log, frameNo, fragmentNo, stream, data, now);
    }
  }

  // ----- requests -----

  lemma RequestAgrees(st: Store, log: seq<Sent>, stream: Byte, key: Key)
    requires Agree(st, log)
    ensures Agree(Request(st, stream, key), log)
  {
    var u := Request(st, stream, key);
    if u != st {
      var g := st.buffer[key].generation;
      assert Genuine(log, key, st.buffer[key]);
      assert st.Live(Ticket(key, g));
      assert !InQueue(st, g);
      forall q <- st.queue ensures q.generation != g {
        assert Known(log, q);
      }
      hide Known, Genuine, IsLive, LiveBytes;
      forall h: nat ensures h in u.queued <==> InQueue(u, h) {
        assert h in st.queued <==> InQueue(st, h);
        assert u.queue[|u.queue| - 1] in u.queue;
      }
    }
  }

  lemma PopQueue(st: Store)
    requires QueueAgrees(st) && st.queue != []
    ensures QueueAgrees(Pop(st).0) && forall q :: Pop(st).0.Live(q) == st.Live(q)
  {
    var t, u := st.queue[0], Pop(st).0;
    forall q ensures u.Live(q) == st.Live(q) {}
    assert u.queue == st.queue[1..] && u.queued == st.queued - {t.generation};
    forall q <- u.queue ensures q in st.queue && q.generation != t.generation {
      var i :| 0 <= i < |u.queue| && u.queue[i] == q;
      assert st.queue[i + 1] == q;
    }
    assert forall q <- st.queue :: q == t || q in u.queue;
    hide IsLive, Pop, DistinctGenerations;
    forall h: nat ensures h in u.queued <==> InQueue(u, h) {
      assert h in st.queued <==> InQueue(st, h);
    }
  }

  lemma PopAgrees(st: Store, log: seq<Sent>)
    requires Agree(st, log) && st.queue != []
    ensures Agree(Pop(st).0, log)
  {
    hide Rising, Known;
    var t, u := st.queue[0], Pop(st).0;
    PopQueue(st);
    LiveBytesSame(st.buffer, u.buffer, st.order);
    forall key <- u.buffer ensures Genuine(log, key, u.buffer[key]) { assert Genuine(log, key, st.buffer[key]); }
    hide Genuine, InQueue, LiveBytes;
  }

  /** A request is answered only with the bytes and the stream sent under its own generation, whatever
      its key was reused for since. */
  lemma AnswerIsOwn(st: Store, log: seq<Sent>)
    requires Agree(st, log) && st.queue != [] && Pop(st).1.Retransmit?
    ensures 1 <= st.queue[0].generation <= |log|
    ensures log[st.queue[0].generation - 1] == Sent(st.queue[0].key, Pop(st).1.stream, Pop(st).1.data)
  {
    var t := st.queue[0];
    assert Genuine(log, t.key, st.buffer[t.key]);
  }

  /** The one age record of an entry. */
  lemma ExactlyOneRecord(st: Store, key: Key) returns (i: nat)
    requires Covered(st) && key in st.buffer
    ensures i < |st.order| && st.order[i] == Ticket(key, st.buffer[key].generation)
    ensures forall j | 0 <= j < |st.order| && st.order[j].generation == st.buffer[key].generation :: j == i
  {
    i :| 0 <= i < |st.order| && st.order[i] == Ticket(key, st.buffer[key].generation);
  }

  // ----- NACK messages -----

  lemma {:induction false} RangeAgrees(st: Store, log: seq<Sent>, stream: Byte, frameNo: Word16, from: nat, n: nat)
    requires Agree(st, log) && from + n <= 0x1_0000
    ensures Agree(RequestRange(st, stream, frameNo, from, n), log)
    decreases n
  {
    hide Agree, Request;
    if n > 0 {
      RequestAgrees(st, log, stream, Key(frameNo, from));
      RangeAgrees(Request(st, stream, Key(frameNo, from)), log, stream, frameNo, from + 1, n - 1);
    }
  }

  lemma {:induction false} EntriesAgree(st: Store, log: seq<Sent>, entries: seq<NackEntry>)
    requires Agree(st, log)
    ensures Agree(RequestEntries(st, entries).0, log)
    decreases |entries|
  {
    hide Agree, RequestRange;
    if entries != [] && entries[0].fragmentNo + entries[0].extra as int <= UINT16_MAX {
      var e := entries[0];
      RangeAgrees(st, log, e.stream, e.frameNo, e.fragmentNo, e.extra as int + 1);
      EntriesAgree(RequestRange(st, e.stream, e.frameNo, e.fragmentNo, e.extra as int + 1), log, entries[1..]);
    }
  }

  lemma EmptyAgrees()
    ensures Agree(EMPTY, [])
  {
    assert forall g: nat :: !InQueue(EMPTY, g);
  }
}
