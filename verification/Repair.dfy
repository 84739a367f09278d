/** One loss-free NACK round: the receiver's NACK reaches the sender, the sender's retransmits reach the
    receiver, and the bucket gains every fragment that was asked for. */
module Repair {
  import opened Wire
  import opened Fragmenter
  import opened FrameMemory
  import opened Placement
  import opened NackRanges
  import opened Results
  import opened Retention
  import opened RetentionRuns
  import opened SenderSpec
  import opened SenderRuns
  import opened NackService
  import opened ReceiverSpec
  import opened ReceiverRuns
  import opened EndToEnd
  import opened Bundles

  /** What the sender holds under this frame number are fragments of this job, and everything the
      incomplete bucket misses is held. */
  ghost predicate Backed(st: Store, job: Job, b: Bucket)
    requires job.Valid()
  {
    && (forall key <- st.buffer :: st.buffer[key].frameNo == job.frameNo ==>
          st.buffer[key].fragmentNo <= job.Of() && st.buffer[key].data == Frame(job, st.buffer[key].fragmentNo))
    && (forall k | 0 <= k <= job.Of() && k !in b.asm.received :: Held(st, job, k))
  }

  predicate Held(st: Store, job: Job, k: nat)
    requires job.Valid() && k <= job.Of()
  {
    var key := Key(job.frameNo, k);
    key in st.buffer && st.buffer[key].stream == job.stream && st.buffer[key].data == Frame(job, k)
  }

  // ----- the request -----

  /** Live in the queue after the request, whether it was waiting already or is queued now. */
  predicate Waiting(st: Store, key: Key) {
    key in st.buffer && Ticket(key, st.buffer[key].generation) in st.queue
  }

  lemma {:induction false} WantedIn(st: Store, stream: Byte, frameNo: Word16, ks: seq<nat>, k: nat)
    requires Numbers(ks) && k in ks
    ensures k <= UINT16_MAX
    ensures Wanted(st, stream, Key(frameNo, k)) ==>
      Ticket(Key(frameNo, k), st.buffer[Key(frameNo, k)].generation) in WantedTickets(st, stream, frameNo, ks)
  {
    hide Wanted;
    if k != ks[0] {
      assert k in ks[1..];
      WantedIn(st, stream, frameNo, ks[1..], k);
    }
  }

  /** What is held and asked for on its stream waits afterwards. */
  lemma RequestedWaits(st: Store, log: seq<Sent>, stream: Byte, frameNo: Word16, ks: seq<nat>, k: Word16)
    requires Agree(st, log) && Numbers(ks) && NoRepeats(ks) && k in ks
    requires Key(frameNo, k) in st.buffer && st.buffer[Key(frameNo, k)].stream == stream
    ensures Waiting(RequestAll(st, stream, frameNo, ks), Key(frameNo, k))
  {
    var key := Key(frameNo, k);
    if st.buffer[key].generation in st.queued { QueuedWaits(st, log, key); }
    hide Agree, RequestAll, WantedTickets;
    RequestExact(st, log, stream, frameNo, ks);
    WantedIn(st, stream, frameNo, ks, k);
  }

  lemma QueuedWaits(st: Store, log: seq<Sent>, key: Key)
    requires Agree(st, log) && key in st.buffer && st.buffer[key].generation in st.queued
    ensures Ticket(key, st.buffer[key].generation) in st.queue
  {
    var g := st.buffer[key].generation;
    assert InQueue(st, g);
    var t :| t in st.queue && t.generation == g && st.Live(t);
    assert Known(log, t) && Genuine(log, key, st.buffer[key]);
    assert t == Ticket(key, g);
  }

  // ----- the answers arrive -----

  /** The packets of the answers are handed to the receiver one after the other. */
  function HandedIn(cfg: Settings, s: Receiver, answers: seq<Answer>, source: Byte, now: int): (t: Receiver)
    requires s.TableOk() && forall i | 0 <= i < |answers| :: answers[i].Retransmit?
    ensures t.TableOk()
    decreases |answers|
  {
    if answers == [] then s
    else
      DispatchKeepsTable(cfg, s, answers[0].data, source, now);
      HandedIn(cfg, Dispatch(cfg, s, answers[0].data, source, now).0, answers[1..], source, now)
  }

  /** A fragment of the job, or a frame of another superframe. */
  ghost predicate Harmless(job: Job, data: seq<Byte>)
    requires job.Valid()
  {
    (exists k :: 0 <= k <= job.Of() && data == Frame(job, k)) || (Readable(data) && Decode(data).frameNo != job.frameNo)
  }

  lemma OneArrives(cfg: Settings, s: Receiver, job: Job, source: Byte, order: int, data: seq<Byte>, now: int)
    requires s.TableOk() && Good(job) && Collects(s.buckets[s.Index(job.frameNo)], job, source, order)
    requires Harmless(job, data)
    ensures var t := Dispatch(cfg, s, data, source, now).0;
      && |t.buckets| == |s.buckets| && Collects(t.buckets[s.Index(job.frameNo)], job, source, order)
      && s.buckets[s.Index(job.frameNo)].asm.received <= t.buckets[s.Index(job.frameNo)].asm.received
      && t.buckets[s.Index(job.frameNo)].timing == s.buckets[s.Index(job.frameNo)].timing
      && (forall k | 0 <= k <= job.Of() :: data == Frame(job, k) ==> k in t.buckets[s.Index(job.frameNo)].asm.received)
      && (forall k <- t.buckets[s.Index(job.frameNo)].asm.received ::
            k in s.buckets[s.Index(job.frameNo)].asm.received || (k <= job.Of() && data == Frame(job, k)))
  {
    hide Collects, Handle, Encode, Decode, Receiver.Pending, Receiver.Listed;
    forall k | 0 <= k <= job.Of() && data == Frame(job, k)
      ensures var t := Dispatch(cfg, s, data, source, now).0;
        && |t.buckets| == |s.buckets| && Collects(t.buckets[s.Index(job.frameNo)], job, source, order)
        && t.buckets[s.Index(job.frameNo)].asm.received == s.buckets[s.Index(job.frameNo)].asm.received + {k}
        && t.buckets[s.Index(job.frameNo)].timing == s.buckets[s.Index(job.frameNo)].timing
    {
      FrameRefines(cfg, s, job.Fragment(k), source, now);
      OwnAccepted(cfg, s, job, k, source, order, now);
    }
    if !exists k :: 0 <= k <= job.Of() && data == Frame(job, k) {
      OtherArrives(cfg, s, job, source, order, data, now);
    }
  }

  lemma OtherArrives(cfg: Settings, s: Receiver, job: Job, source: Byte, order: int, data: seq<Byte>, now: int)
    requires s.TableOk() && job.Valid() && Collects(s.buckets[s.Index(job.frameNo)], job, source, order)
    requires Readable(data) && Decode(data).frameNo != job.frameNo
    ensures var t := Dispatch(cfg, s, data, source, now).0;
      |t.buckets| == |s.buckets| && t.buckets[s.Index(job.frameNo)] == s.buckets[s.Index(job.frameNo)]
  {
    var p := Decode(data);
    EncodeDecode(data);
    FrameRefines(cfg, s, p, source, now);
    hide Handle, Encode, Decode, Receiver.Pending, Receiver.Listed;
    OtherLeaves(cfg, s, p, source, now, job.frameNo);
  }

  /** Every fragment among the answers was received. */
  ghost predicate AnswersGot(job: Job, answers: seq<Answer>, got: set<nat>)
    requires job.Valid()
  {
    forall k | 0 <= k <= job.Of() :: Retransmit(Frame(job, k), job.stream) in answers ==> k in got
  }

  lemma GotStep(job: Job, answers: seq<Answer>, mid: set<nat>, after: set<nat>)
    requires job.Valid() && answers != [] && answers[0].Retransmit? && AnswersGot(job, answers[1..], after)
    requires mid <= after
    requires forall k | 0 <= k <= job.Of() :: answers[0].data == Frame(job, k) ==> k in mid
    ensures AnswersGot(job, answers, after)
  {
    hide Frame, Job.Valid;
    assert forall a <- answers :: a == answers[0] || a in answers[1..];
  }

  /** The fragment is among the answers. */
  predicate AmongAnswers(job: Job, answers: seq<Answer>, k: nat)
    requires job.Valid() && k <= job.Of()
  {
    exists i | 0 <= i < |answers| :: answers[i].Retransmit? && answers[i].data == Frame(job, k)
  }

  /** Whatever is new was among the answers. */
  ghost predicate OnlyAnswers(job: Job, answers: seq<Answer>, before: set<nat>, after: set<nat>)
    requires job.Valid()
  {
    forall k <- after :: k in before || (k <= job.Of() && AmongAnswers(job, answers, k))
  }

  lemma OnlyStep(job: Job, answers: seq<Answer>, before: set<nat>, mid: set<nat>, after: set<nat>)
    requires job.Valid() && answers != [] && answers[0].Retransmit? && OnlyAnswers(job, answers[1..], mid, after)
    requires forall k <- mid :: k in before || (k <= job.Of() && answers[0].data == Frame(job, k))
    ensures OnlyAnswers(job, answers, before, after)
  {
    hide Frame, Job.Valid;
    forall k <- after | k !in before ensures k <= job.Of() && AmongAnswers(job, answers, k) {
      if k !in mid {
        var i :| 0 <= i < |answers| - 1 && answers[1..][i].Retransmit? && answers[1..][i].data == Frame(job, k);
        assert answers[i + 1] == answers[1..][i];
      }
    }
  }

  lemma {:induction false} AllArrive(cfg: Settings, s: Receiver, job: Job, source: Byte, order: int,
                                     answers: seq<Answer>, now: int)
    requires s.TableOk() && Good(job) && Collects(s.buckets[s.Index(job.frameNo)], job, source, order)
    requires forall i | 0 <= i < |answers| :: answers[i].Retransmit? && Harmless(job, answers[i].data)
    ensures var t := HandedIn(cfg, s, answers, source, now);
      && |t.buckets| == |s.buckets| && Collects(t.buckets[s.Index(job.frameNo)], job, source, order)
      && s.buckets[s.Index(job.frameNo)].asm.received <= t.buckets[s.Index(job.frameNo)].asm.received
      && AnswersGot(job, answers, t.buckets[s.Index(job.frameNo)].asm.received)
      && t.buckets[s.Index(job.frameNo)].timing == s.buckets[s.Index(job.frameNo)].timing
      && OnlyAnswers(job, answers, s.buckets[s.Index(job.frameNo)].asm.received,
                     t.buckets[s.Index(job.frameNo)].asm.received)
    decreases |answers|
  {
    assert job.Valid();
    hide Collects, Good, Harmless, Frame, Dispatch, Receiver.Pending, Receiver.Listed, Receiver.BucketsOk, AmongAnswers,
         Job.Valid;
    if answers != [] {
      var i := s.Index(job.frameNo);
      DispatchKeepsTable(cfg, s, answers[0].data, source, now);
      OneArrives(cfg, s, job, source, order, answers[0].data, now);
      var m := Dispatch(cfg, s, answers[0].data, source, now).0;
      AllArrive(cfg, m, job, source, order, answers[1..], now);
      var t := HandedIn(cfg, s, answers, source, now);
      GotStep(job, answers, m.buckets[i].asm.received, t.buckets[i].asm.received);
      OnlyStep(job, answers, s.buckets[i].asm.received, m.buckets[i].asm.received, t.buckets[i].asm.received);
    }
  }

  /** Everything the sender may answer with is harmless to this bucket. */
  lemma AnswersHarmless(st: Store, log: seq<Sent>, job: Job, b: Bucket)
    requires Sound(st, log) && job.Valid() && Backed(st, job, b)
    ensures forall i | 0 <= i < |AnswersTo(st.buffer, st.queue)| ::
      AnswersTo(st.buffer, st.queue)[i].Retransmit? && Harmless(job, AnswersTo(st.buffer, st.queue)[i].data)
  {
    var answers := AnswersTo(st.buffer, st.queue);
    forall i | 0 <= i < |answers| ensures answers[i].Retransmit? && Harmless(job, answers[i].data) {
      AnswersAreEntries(st.buffer, st.queue, answers[i]);
      var key :| key in st.buffer && answers[i] == Retransmit(st.buffer[key].data, st.buffer[key].stream);
      EntryHarmless(st, log, job, b, key);
    }
  }

  lemma EntryHarmless(st: Store, log: seq<Sent>, job: Job, b: Bucket, key: Key)
    requires Sound(st, log) && job.Valid() && Backed(st, job, b) && key in st.buffer
    ensures Harmless(job, st.buffer[key].data)
  {
    var e := st.buffer[key];
    assert Genuine(log, key, e);
    assert Keyed(log[e.generation - 1]);
    hide Frame, Decode, Held;
  }

  // ----- the round -----

  /** What one NACK of this bucket asks for. */
  function Asked(b: Bucket): seq<nat>
    requires b.asm.Ok()
  {
    Expand(NackGaps(b))
  }

  /** Each asked-for fragment is missing, and among the answers. */
  ghost predicate AnswersAsked(job: Job, b: Bucket, answers: seq<Answer>)
    requires job.Valid() && b.asm.Ok()
  {
    forall k <- Asked(b) :: k <= job.Of() && k !in b.asm.received && Retransmit(Frame(job, k), job.stream) in answers
  }

  /** Every missing fragment is asked for. */
  ghost predicate AsksAll(job: Job, b: Bucket)
    requires b.asm.Ok()
  {
    forall k | 0 <= k <= job.Of() && k !in b.asm.received :: k in Asked(b)
  }

  /** The bucket has strictly more than before, all it asked for, and everything if 255 ranges were enough to
      ask for it. */
  ghost predicate Advanced(job: Job, b: Bucket, c: Bucket)
    requires job.Valid() && b.asm.Ok()
  {
    && b.asm.received < c.asm.received && (forall k <- Asked(b) :: k in c.asm.received)
    && (|Gaps(b.asm.received, 0, b.asm.of + 1)| <= 255 ==> Full(job, c.asm.received))
  }

  /** What is asked for is a prefix of what is missing. */
  lemma AskedPrefix(b: Bucket)
    requires b.asm.Ok()
    ensures var missing, gaps := Missing(b.asm.received, 0, b.asm.of + 1), Gaps(b.asm.received, 0, b.asm.of + 1);
      && Asked(b) <= missing && (|gaps| <= 255 ==> Asked(b) == missing) && (missing != [] ==> Asked(b) != [])
      && (NackGaps(b) == [] ==> Asked(b) == [])
  {
    LimitedPrefix(b.asm.received, b.asm.of);
    ExpandEmpty();
    hide Gaps, Limited, Expand, Missing, Assembly.Ok;
  }

  /** The asked-for numbers are missing ones, each once. */
  lemma AskedMissing(b: Bucket)
    requires b.asm.Ok()
    ensures Numbers(Asked(b)) && NoRepeats(Asked(b))
    ensures forall k <- Asked(b) :: k <= b.asm.of && k !in b.asm.received
  {
    assert b.asm.of < MAX_FRAGMENTS;
    hide Asked, NackGaps, Gaps, Missing, Assembly.Ok;
    var missing := Missing(b.asm.received, 0, b.asm.of + 1);
    AskedPrefix(b);
    MissingIs(b.asm.received, 0, b.asm.of + 1);
    forall i | 0 <= i < |Asked(b)| ensures Asked(b)[i] == missing[i] && missing[i] in missing {}
  }

  /** All the missing ones if 255 ranges suffice, and some of them unless the bucket is complete. */
  lemma AskedEnough(b: Bucket)
    requires b.asm.Ok()
    ensures |Gaps(b.asm.received, 0, b.asm.of + 1)| <= 255 ==>
      forall k | 0 <= k <= b.asm.of && k !in b.asm.received :: k in Asked(b)
    ensures Asked(b) == [] ==> b.asm.received == Upto(b.asm.of + 1)
    ensures NackGaps(b) == [] ==> Asked(b) == []
  {
    hide Asked, NackGaps, Gaps, Missing, Assembly.Ok;
    AskedPrefix(b);
    MissingIs(b.asm.received, 0, b.asm.of + 1);
    if Asked(b) == [] { NoneMissing(b.asm); }
  }

  lemma NoneMissing(a: Assembly)
    requires a.Ok() && Missing(a.received, 0, a.of + 1) == []
    ensures a.received == Upto(a.of + 1)
  {
    MissingIs(a.received, 0, a.of + 1);
  }

  lemma ExpandEmpty()
    ensures Expand([]) == []
  {
  }

  /** The NACK is accepted, and every asked-for fragment is then among the answers. */
  lemma AllAnswered(st: Store, log: seq<Sent>, job: Job, b: Bucket, limit: nat)
    requires Sound(st, log) && job.Valid() && b.asm.Ok() && b.asm.of == job.Of() && NackGaps(b) != []
    requires b.savedNo == job.frameNo && b.meta.stream == job.stream && Backed(st, job, b)
    ensures var (u, r) := NackEffect(st, NackMessage(b));
      && r == Ok && u.buffer == st.buffer && Sound(u, log)
      && (|u.queue| <= limit ==>
            && Drain(u, limit).1 == AnswersTo(u.buffer, u.queue)
            && forall k <- Asked(b) :: k <= job.Of() && Retransmit(Frame(job, k), job.stream) in Drain(u, limit).1)
  {
    var ks := Asked(b);
    AskedMissing(b);
    var entries := EntryList(job.stream, job.frameNo, NackGaps(b));
    EntriesRequest(st, job.stream, job.frameNo, NackGaps(b));
    NackMessageApplied(st, entries);
    RequestExact(st, log, job.stream, job.frameNo, ks);
    var u := RequestAll(st, job.stream, job.frameNo, ks);
    hide Agree, NackGaps, EntryList, RequestAll, RequestEntries, NackEffect, EncodeNack, Frame, Asked, Keyed, Drain,
         AnswersTo;
    assert NackEffect(st, NackMessage(b)) == (u, Ok);
    if |u.queue| <= limit {
      DrainExact(u, limit);
      forall k <- ks ensures k <= job.Of() && Retransmit(Frame(job, k), job.stream) in AnswersTo(u.buffer, u.queue) {
        assert Held(st, job, k);
        RequestedWaits(st, log, job.stream, job.frameNo, ks, k);
        LiveAnswered(u.buffer, u.queue, Ticket(Key(job.frameNo, k), u.buffer[Key(job.frameNo, k)].generation));
      }
    }
  }

  /** One loss-free round, whatever else is queued or retained at the sender: the NACK is accepted, and
      afterwards the bucket has every fragment it asked for. With at most 255 gap ranges it is complete;
      otherwise it has strictly more than before. */
  lemma RepairRound(cfg: Settings, s: Receiver, job: Job, source: Byte, order: int, st: Store, log: seq<Sent>,
                    limit: nat, now: int)
    requires s.TableOk() && Good(job) && Collects(s.buckets[s.Index(job.frameNo)], job, source, order)
    requires !Full(job, s.buckets[s.Index(job.frameNo)].asm.received)
    requires Sound(st, log) && Backed(st, job, s.buckets[s.Index(job.frameNo)])
    requires |NackEffect(st, NackMessage(s.buckets[s.Index(job.frameNo)])).0.queue| <= limit
    ensures var b := s.buckets[s.Index(job.frameNo)];
      var (u, r) := NackEffect(st, NackMessage(b));
      && r == Ok
      && (forall i | 0 <= i < |Drain(u, limit).1| :: Drain(u, limit).1[i].Retransmit?)
      && var t := HandedIn(cfg, s, Drain(u, limit).1, source, now);
         && |t.buckets| == |s.buckets|
         && var c := t.buckets[s.Index(job.frameNo)];
            && Collects(c, job, source, order) && Advanced(job, b, c) && c.timing == b.timing
            && OnlyAnswers(job, Drain(u, limit).1, b.asm.received, c.asm.received)
  {
    var b := s.buckets[s.Index(job.frameNo)];
    assert b.asm.Ok() && b.asm.of == job.Of() && b.savedNo == job.frameNo && b.meta.stream == job.stream;
    assert job.Valid();
    TableIsSized(s);
    hide Collects, NackEffect, NackMessage, Asked, Gaps, Sound, Frame, Receiver.TableOk, Receiver.BucketsOk, Upto, Full,
         Drain, Backed, Harmless, Good, HandedIn, AnswersAsked, AnswersGot, AsksAll, Assembly.Ok, Job.Valid, Advanced,
         OnlyAnswers;
    RoundAnswers(st, log, job, b, limit);
    var answers := Drain(NackEffect(st, NackMessage(b)).0, limit).1;
    AllArrive(cfg, s, job, source, order, answers, now);
    var c := HandedIn(cfg, s, answers, source, now).buckets[s.Index(job.frameNo)];
    FinishRound(job, source, order, b, answers, c);
  }

  lemma FinishRound(job: Job, source: Byte, order: int, b: Bucket, answers: seq<Answer>, c: Bucket)
    requires job.Valid() && b.asm.Ok() && b.asm.of == job.Of() && Collects(c, job, source, order)
    requires b.asm.received <= c.asm.received && Asked(b) != []
    requires AnswersAsked(job, b, answers) && AnswersGot(job, answers, c.asm.received)
    requires |Gaps(b.asm.received, 0, b.asm.of + 1)| <= 255 ==> AsksAll(job, b)
    ensures Advanced(job, b, c)
  {
    hide Collects, Asked, Gaps, AnswersAsked, AnswersGot, Full, Assembly.Ok;
    AskedGained(b, job, answers, c.asm.received);
    if |Gaps(b.asm.received, 0, b.asm.of + 1)| <= 255 { NowFull(c, job, source, order); }
  }

  /** What the sender's side of the round comes to: every answer is harmless, and among them is every fragment
      asked for, which are missing ones, at least one, and all if 255 ranges suffice. */
  lemma RoundAnswers(st: Store, log: seq<Sent>, job: Job, b: Bucket, limit: nat)
    requires job.Valid() && b.asm.Ok() && b.asm.of == job.Of() && b.savedNo == job.frameNo
    requires b.meta.stream == job.stream
    requires !Full(job, b.asm.received) && Sound(st, log) && Backed(st, job, b)
    requires |NackEffect(st, NackMessage(b)).0.queue| <= limit
    ensures NackEffect(st, NackMessage(b)).1 == Ok && Asked(b) != []
    ensures var answers := Drain(NackEffect(st, NackMessage(b)).0, limit).1;
      && (forall i | 0 <= i < |answers| :: answers[i].Retransmit? && Harmless(job, answers[i].data))
      && AnswersAsked(job, b, answers)
    ensures |Gaps(b.asm.received, 0, b.asm.of + 1)| <= 255 ==> AsksAll(job, b)
  {
    AskedMissing(b);
    AskedEnough(b);
    hide NackEffect, NackMessage, NackGaps, Asked, Gaps, Agree, Keyed, Frame, Upto, Drain, AnswersTo, Backed, Harmless,
         Assembly.Ok;
    AllAnswered(st, log, job, b, limit);
    var u := NackEffect(st, NackMessage(b)).0;
    BackedSame(st, u, job, b);
    AnswersHarmless(u, log, job, b);
  }

  lemma BackedSame(st: Store, u: Store, job: Job, b: Bucket)
    requires job.Valid() && Backed(st, job, b) && u.buffer == st.buffer
    ensures Backed(u, job, b)
  {
    assert forall k | 0 <= k <= job.Of() :: Held(st, job, k) == Held(u, job, k);
  }

  lemma AskedGained(b: Bucket, job: Job, answers: seq<Answer>, got: set<nat>)
    requires job.Valid() && b.asm.Ok() && b.asm.of == job.Of() && b.asm.received <= got && Asked(b) != []
    requires AnswersAsked(job, b, answers) && AnswersGot(job, answers, got)
    ensures b.asm.received < got && forall k <- Asked(b) :: k in got
    ensures (forall k | 0 <= k <= job.Of() && k !in b.asm.received :: k in Asked(b)) ==>
      forall k | 0 <= k <= job.Of() :: k in got
  {
    hide Asked, Frame;
    assert Asked(b)[0] in Asked(b);
  }

  lemma NowFull(c: Bucket, job: Job, source: Byte, order: int)
    requires job.Valid() && Collects(c, job, source, order) && forall k | 0 <= k <= job.Of() :: k in c.asm.received
    ensures Full(job, c.asm.received)
  {
    hide SlotsHold, At;
    assert c.asm.of == job.Of();
  }
}
