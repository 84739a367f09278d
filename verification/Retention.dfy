/** The sender's retention store (efp.h, Sender): sent fragments kept for retransmission, the age order
    with its stale records, and the retransmit queue with its stale requests. */
module Retention {
  import opened Results
  import opened Wire

  datatype Retained = Retained(timeUs: int, frameNo: Word16, fragmentNo: Word16, stream: Byte, retries: Byte,
                               generation: nat, data: seq<Byte>)

  /** The key of a fragment. The program packs it into 32 bits, which loses nothing. */
  datatype Key = Key(frameNo: Word16, fragmentNo: Word16) {
    function Packed(): nat { frameNo * 0x1_0000 + fragmentNo }
  }

  lemma PackedInjective(a: Key, b: Key)
    ensures a.Packed() == b.Packed() <==> a == b
    ensures a.Packed() < 0x1_0000_0000
  {
  }

  /** An age record or a retransmit request: a key, and the generation it was made for. */
  datatype Ticket = Ticket(key: Key, generation: nat)

  datatype Limits = Limits(retentionMs: Word32, maxBytes: nat) {
    function Cutoff(now: int): int { now - retentionMs * 1000 }
  }

  datatype Store = Store(buffer: map<Key, Retained>, order: seq<Ticket>, queue: seq<Ticket>, queued: set<nat>,
                         generation: nat, bytes: int)
  {
    /** The entry under the ticket's key is still the one the ticket was made for. */
    predicate Live(t: Ticket) { IsLive(buffer, t) }
  }

  predicate IsLive(buffer: map<Key, Retained>, t: Ticket) {
    t.key in buffer && buffer[t.key].generation == t.generation
  }

  const EMPTY := Store(map[], [], [], {}, 0, 0)

  // ----- the operations -----

  function DropOldest(st: Store): Store
    requires st.order != [] && st.Live(st.order[0])
  {
    var t := st.order[0];
    st.(bytes := st.bytes - |st.buffer[t.key].data|, buffer := st.buffer - {t.key},
        queued := st.queued - {t.generation}, order := st.order[1..])
  }

  predicate OverLimit(lim: Limits, st: Store, required: nat) {
    required > lim.maxBytes || st.bytes > lim.maxBytes - required
  }

  /** evictOldRetention: from the oldest, stale records and then entries that are too old or too many. */
  function Evict(lim: Limits, st: Store, now: int, required: nat): Store
    decreases |st.order|
  {
    if st.order == [] then st
    else
      var t := st.order[0];
      if !st.Live(t) then Evict(lim, st.(order := st.order[1..]), now, required)
      else if st.buffer[t.key].timeUs >= lim.Cutoff(now) && !OverLimit(lim, st, required) then st
      else Evict(lim, DropOldest(st), now, required)
  }

  function SizeAt(st: Store, key: Key): nat { if key in st.buffer then |st.buffer[key].data| else 0 }

  function Required(st: Store, key: Key, size: nat): nat {
    if size > SizeAt(st, key) then size - SizeAt(st, key) else 0
  }

  /** Stores a fragment under the next generation, in place of whatever its key held. */
  function Put(st: Store, frameNo: Word16, fragmentNo: Word16, stream: Byte, data: seq<Byte>, now: int): Store {
    var key, g := Key(frameNo, fragmentNo), st.generation + 1;
    st.(bytes := st.bytes - SizeAt(st, key) + |data|,
        queued := if key in st.buffer then st.queued - {st.buffer[key].generation} else st.queued,
        buffer := st.buffer[key := Retained(now, frameNo, fragmentNo, stream, 0, g, data)],
        order := st.order + [Ticket(key, g)],
        generation := g)
  }

  predicate Retains(lim: Limits, size: nat) { lim.retentionMs > 0 && size <= lim.maxBytes }

  /** retainFragment. */
  function Retain(lim: Limits, st: Store, frameNo: Word16, fragmentNo: Word16, stream: Byte, data: seq<Byte>,
                  now: int): Store {
    if !Retains(lim, |data|) then st
    else Put(Evict(lim, st, now, Required(st, Key(frameNo, fragmentNo), |data|)), frameNo, fragmentNo, stream, data,
             now)
  }

  /** One requested fragment: queued if it is retained for that stream and not queued already. */
  function Request(st: Store, stream: Byte, key: Key): Store {
    if key in st.buffer && st.buffer[key].stream == stream && st.buffer[key].generation !in st.queued
    then
      var g := st.buffer[key].generation;
      st.(queued := st.queued + {g}, queue := st.queue + [Ticket(key, g)])
    else st
  }

  function RequestRange(st: Store, stream: Byte, frameNo: Word16, from: nat, n: nat): Store
    requires from + n <= 0x1_0000
    decreases n
  {
    if n == 0 then st
    else RequestRange(Request(st, stream, Key(frameNo, from)), stream, frameNo, from + 1, n - 1)
  }

  /** The entry loop of receiveNack; the flag is false when a range runs past the last fragment number. */
  function RequestEntries(st: Store, entries: seq<NackEntry>): (Store, bool)
    decreases |entries|
  {
    if entries == [] then (st, true)
    else
      var e := entries[0];
      if e.fragmentNo + e.extra as int > UINT16_MAX then (st, false)
      else RequestEntries(RequestRange(st, e.stream, e.frameNo, e.fragmentNo, e.extra as int + 1), entries[1..])
  }

  /** The entries that a NACK message announces, if it is one. */
  function NackEntriesFrom(data: seq<Byte>, i: nat, n: nat): seq<NackEntry>
    requires i + 6 * n <= |data|
    decreases n
  {
    if n == 0 then [] else [DecodeEntry(data, i)] + NackEntriesFrom(data, i + 6, n - 1)
  }

  /** What a NACK message does to the store: malformed ones are rejected untouched, and a range past the
      last fragment number stops the message after the ranges before it. */
  function NackEffect(st: Store, data: seq<Byte>): (Store, Result) {
    if |data| < 3 then (st, FrameSizeMismatch)
    else if GetFrameType(data[0]) != 0 || data[1] != NACK_SUBTYPE then (st, InvalidParameter)
    else if |data| != 3 + 6 * (data[2] as nat) then (st, FrameSizeMismatch)
    else
      var (u, ok) := RequestEntries(st, NackEntriesFrom(data, 3, data[2] as nat));
      (u, if ok then Ok else BufferOutOfBounds)
  }

  datatype Answer = Nothing | Retransmit(data: seq<Byte>, stream: Byte)

  /** The oldest request: answered if its generation is still live, dropped otherwise. */
  function Pop(st: Store): (Store, Answer)
    requires st.queue != []
  {
    var t := st.queue[0];
    var u := st.(queue := st.queue[1..], queued := st.queued - {t.generation});
    if !st.Live(t) then (u, Nothing)
    else
      var e := st.buffer[t.key];
      var retries := if e.retries == 255 then 0 else e.retries + 1;
      (u.(buffer := u.buffer[t.key := e.(retries := retries)]), Retransmit(e.data, e.stream))
  }

  /** processRetransmits: at most `limit` fragments leave. */
  function Drain(st: Store, limit: nat): (Store, seq<Answer>)
    decreases |st.queue|
  {
    if st.queue == [] || limit == 0 then (st, [])
    else
      var (u, a) := Pop(st);
      if a.Nothing? then Drain(u, limit)
      else var (v, more) := Drain(u, limit - 1); (v, [a] + more)
  }

  lemma {:induction false} DrainAnswers(st: Store, limit: nat)
    ensures forall a <- Drain(st, limit).1 :: a.Retransmit?
    decreases |st.queue|
  {
    if st.queue != [] && limit != 0 {
      var (u, a) := Pop(st);
      DrainAnswers(u, if a.Nothing? then limit else limit - 1);
    }
  }
}
