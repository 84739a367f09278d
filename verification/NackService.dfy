/** The sender's side of a NACK: exactly the fragments asked for are queued, and draining the queue
    retransmits exactly the live requests. */
module NackService {
  import opened Wire
  import opened Fragmenter
  import opened NackRanges
  import opened Results
  import opened Retention
  import opened RetentionRuns

  // ----- the message -----

  lemma {:induction false} EntriesRead(entries: seq<NackEntry>, i: nat)
    requires i <= |entries| < 0x100
    ensures |EncodeNack(entries)| == 3 + 6 * |entries|
    ensures NackEntriesFrom(EncodeNack(entries), 3 + 6 * i, |entries| - i) == entries[i..]
    decreases |entries| - i
  {
    if i < |entries| { NackEntryRoundTrip(entries, i); }
    else { assert |EncodeEntries(entries)| == 6 * |entries|; }
    hide EncodeNack, DecodeEntry;
    if i < |entries| {
      EntriesRead(entries, i + 1);
      assert entries[i..] == [entries[i]] + entries[i + 1..];
    }
  }

  /** Any list of up to 255 entries survives the wire and is applied as it was written. */
  lemma NackMessageApplied(st: Store, entries: seq<NackEntry>)
    requires 0 < |entries| < 0x100
    ensures var (u, ok) := RequestEntries(st, entries);
      NackEffect(st, EncodeNack(entries)) == (u, if ok then Ok else BufferOutOfBounds)
  {
    EntriesRead(entries, 0);
    var m := EncodeNack(entries);
    assert m[0] == 0 && m[1] == NACK_SUBTYPE && m[2] == |entries| as Byte;
    hide EncodeNack, RequestEntries, NackEntriesFrom;
    assert entries[0..] == entries;
  }

  // ----- the requests -----

  predicate Numbers(ks: seq<nat>) { forall i | 0 <= i < |ks| :: ks[i] <= UINT16_MAX }

  function RequestAll(st: Store, stream: Byte, frameNo: Word16, ks: seq<nat>): Store
    requires Numbers(ks)
    decreases |ks|
  {
    if ks == [] then st else RequestAll(Request(st, stream, Key(frameNo, ks[0])), stream, frameNo, ks[1..])
  }

  lemma {:induction false} RequestConcat(st: Store, stream: Byte, frameNo: Word16, a: seq<nat>, b: seq<nat>)
    requires Numbers(a) && Numbers(b)
    ensures Numbers(a + b)
    ensures RequestAll(st, stream, frameNo, a + b) == RequestAll(RequestAll(st, stream, frameNo, a), stream, frameNo, b)
    decreases |a|
  {
    hide Request;
    if a == [] {
      assert a + b == b;
    } else {
      assert (a + b)[1..] == a[1..] + b;
      RequestConcat(Request(st, stream, Key(frameNo, a[0])), stream, frameNo, a[1..], b);
    }
  }

  lemma {:induction false} RangeRequests(st: Store, stream: Byte, frameNo: Word16, from: nat, n: nat)
    requires from + n <= 0x1_0000
    ensures Numbers(Span(from, n))
    ensures RequestRange(st, stream, frameNo, from, n) == RequestAll(st, stream, frameNo, Span(from, n))
    decreases n
  {
    hide Request;
    if n > 0 {
      RangeRequests(Request(st, stream, Key(frameNo, from)), stream, frameNo, from + 1, n - 1);
      assert Span(from, n) == [from] + Span(from + 1, n - 1);
    }
  }

  /** Ranges are processed as the single numbers they expand to, and none is refused. */
  lemma {:induction false} EntriesRequest(st: Store, stream: Byte, frameNo: Word16, gaps: seq<Gap>)
    requires AllSendable(gaps)
    ensures Numbers(Expand(gaps))
    ensures RequestEntries(st, EntryList(stream, frameNo, gaps))
         == (RequestAll(st, stream, frameNo, Expand(gaps)), true)
    decreases |gaps|
  {
    hide Request;
    if gaps != [] {
      var g := gaps[0];
      RangeRequests(st, stream, frameNo, g.start, g.extra + 1);
      hide RequestRange, Span;
      EntriesRequest(RequestRange(st, stream, frameNo, g.start, g.extra + 1), stream, frameNo, gaps[1..]);
      assert EntryList(stream, frameNo, gaps)[1..] == EntryList(stream, frameNo, gaps[1..]);
      RequestConcat(st, stream, frameNo, Span(g.start, g.extra + 1), Expand(gaps[1..]));
    }
  }

  predicate Wanted(st: Store, stream: Byte, key: Key) {
    key in st.buffer && st.buffer[key].stream == stream && st.buffer[key].generation !in st.queued
  }

  /** The tickets of the wanted fragments, in the order asked. */
  function WantedTickets(st: Store, stream: Byte, frameNo: Word16, ks: seq<nat>): seq<Ticket>
    requires Numbers(ks)
  {
    if ks == [] then []
    else
      (var key := Key(frameNo, ks[0]); if Wanted(st, stream, key) then [Ticket(key, st.buffer[key].generation)] else [])
      + WantedTickets(st, stream, frameNo, ks[1..])
  }

  predicate NoRepeats(ks: seq<nat>) { forall i, j | 0 <= i < j < |ks| :: ks[i] != ks[j] }

  lemma {:induction false} WantedUnaffected(st: Store, log: seq<Sent>, stream: Byte, frameNo: Word16, k: nat,
                                            ks: seq<nat>)
    requires Agree(st, log) && k <= UINT16_MAX && k !in ks && Numbers(ks)
    ensures WantedTickets(Request(st, stream, Key(frameNo, k)), stream, frameNo, ks)
         == WantedTickets(st, stream, frameNo, ks)
  {
    if ks != [] {
      var key, other := Key(frameNo, k), Key(frameNo, ks[0]);
      assert key != other;
      if key in st.buffer && other in st.buffer {
        assert Genuine(log, key, st.buffer[key]) && Genuine(log, other, st.buffer[other]);
      }
      hide Agree, Genuine;
      WantedUnaffected(st, log, stream, frameNo, k, ks[1..]);
    }
  }

  /** A NACK queues exactly the asked-for fragments that are retained, match the stream and are not queued
      already, in the order asked, and changes no entry. */
  lemma {:induction false} RequestExact(st: Store, log: seq<Sent>, stream: Byte, frameNo: Word16, ks: seq<nat>)
    requires Agree(st, log) && Numbers(ks) && NoRepeats(ks)
    ensures var u := RequestAll(st, stream, frameNo, ks);
      && u.queue == st.queue + WantedTickets(st, stream, frameNo, ks)
      && u.buffer == st.buffer && u.order == st.order && Agree(u, log)
    decreases |ks|
  {
    if ks != [] {
      var key := Key(frameNo, ks[0]);
      var u := Request(st, stream, key);
      RequestAgrees(st, log, stream, key);
      WantedUnaffected(st, log, stream, frameNo, ks[0], ks[1..]);
      assert u.queue == st.queue + (if Wanted(st, stream, key) then [Ticket(key, st.buffer[key].generation)] else []);
      assert u.buffer == st.buffer && u.order == st.order;
      hide Agree, Wanted, Request;
      RequestExact(u, log, stream, frameNo, ks[1..]);
    }
  }

  // ----- the answers -----

  function AnswersTo(buffer: map<Key, Retained>, queue: seq<Ticket>): seq<Answer> {
    if queue == [] then []
    else (if IsLive(buffer, queue[0]) then [Retransmit(buffer[queue[0].key].data, buffer[queue[0].key].stream)] else [])
         + AnswersTo(buffer, queue[1..])
  }

  lemma {:induction false} AnswersSame(a: map<Key, Retained>, b: map<Key, Retained>, queue: seq<Ticket>)
    requires forall t :: IsLive(a, t) == IsLive(b, t)
    requires forall key :: key in a && key in b ==> a[key].data == b[key].data && a[key].stream == b[key].stream
    ensures AnswersTo(a, queue) == AnswersTo(b, queue)
  {
    if queue != [] { AnswersSame(a, b, queue[1..]); }
  }

  /** Draining the queue retransmits exactly the live requests, oldest first. */
  lemma {:induction false} DrainExact(st: Store, limit: nat)
    requires |st.queue| <= limit
    ensures Drain(st, limit).1 == AnswersTo(st.buffer, st.queue) && Drain(st, limit).0.queue == []
    decreases |st.queue|
  {
    if st.queue != [] {
      var (u, a) := Pop(st);
      AnswersSame(st.buffer, u.buffer, st.queue[1..]);
      DrainExact(u, if a.Nothing? then limit else limit - 1);
    }
  }

  lemma {:induction false} LiveAnswered(buffer: map<Key, Retained>, queue: seq<Ticket>, t: Ticket)
    requires t in queue && IsLive(buffer, t)
    ensures Retransmit(buffer[t.key].data, buffer[t.key].stream) in AnswersTo(buffer, queue)
  {
    hide IsLive;
    if t != queue[0] {
      assert t in queue[1..];
      LiveAnswered(buffer, queue[1..], t);
    }
  }

  lemma {:induction false} AnswersAreEntries(buffer: map<Key, Retained>, queue: seq<Ticket>, a: Answer)
    requires a in AnswersTo(buffer, queue)
    ensures exists key <- buffer :: a == Retransmit(buffer[key].data, buffer[key].stream)
  {
    if IsLive(buffer, queue[0]) && a == Retransmit(buffer[queue[0].key].data, buffer[queue[0].key].stream) {
    } else {
      AnswersAreEntries(buffer, queue[1..], a);
    }
  }
}
