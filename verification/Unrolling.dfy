/** A run of the receiver on packets as bytes, bundles and sweeps included, as a run on single fragments. */
module Unrolling {
  import opened Wire
  import opened Fragmenter
  import opened FrameMemory
  import opened Results
  import opened ReceiverSpec
  import opened ReceiverRuns
  import opened FrameOrder
  import Sequence

  /** The members of a bundle that are handled: up to and including the one that ends it. */
  function MembersHandled(cfg: Settings, s: Receiver, data: seq<Byte>, size: nat, source: Byte, now: int): seq<Packet>
    requires s.TableOk() && size >= 8 && Multiple(|data|, size)
    decreases |data|
  {
    if |data| < size || GetFrameType(data[0]) != 1 then []
    else
      var p := Decode1(data[..size]);
      HandleKeepsTable(cfg, s, p, source, now);
      StepDown(|data|, size);
      var (t, r) := Handle(cfg, s, p, source, now);
      [p] + if r != Ok && r != DuplicateFragment then [] else MembersHandled(cfg, t, data[size..], size, source, now)
  }

  /** The fragments that a packet makes the receiver handle. */
  function Handled(cfg: Settings, s: Receiver, data: seq<Byte>, source: Byte, now: int): seq<Packet>
    requires s.TableOk()
  {
    if data == [] then []
    else if 1 <= GetFrameType(data[0]) <= 3 then (if Readable(data) then [Decode(data)] else [])
    else if GetFrameType(data[0]) != 4 || |data| < 2 then []
    else
      var count := data[1] as nat;
      if count == 0 || (|data| - 2) % count != 0 || (|data| - 2) / count < 8 then []
      else
        EqualParts(|data| - 2, count);
        MembersHandled(cfg, s, data[2..], (|data| - 2) / count, source, now)
  }

  function Fold(cfg: Settings, s: Receiver, ps: seq<Packet>, source: Byte, now: int): (t: Receiver)
    requires s.TableOk()
    ensures t.TableOk()
    decreases |ps|
  {
    if ps == [] then s
    else
      HandleKeepsTable(cfg, s, ps[0], source, now);
      Fold(cfg, Handle(cfg, s, ps[0], source, now).0, ps[1..], source, now)
  }

  lemma FoldOne(cfg: Settings, s: Receiver, p: Packet, rest: seq<Packet>, source: Byte, now: int)
    requires s.TableOk()
    ensures var t := Handle(cfg, s, p, source, now).0;
      t.TableOk() && Fold(cfg, s, [p] + rest, source, now) == Fold(cfg, t, rest, source, now)
    ensures Fold(cfg, s, [p], source, now) == Handle(cfg, s, p, source, now).0
  {
    HandleKeepsTable(cfg, s, p, source, now);
    hide Handle, Receiver.TableOk;
    assert ([p] + rest)[1..] == rest && [p][1..] == [];
    assert Fold(cfg, Handle(cfg, s, p, source, now).0, [], source, now) == Handle(cfg, s, p, source, now).0;
  }

  lemma {:induction false} BundleFolds(cfg: Settings, s: Receiver, data: seq<Byte>, size: nat, source: Byte, now: int)
    requires s.TableOk() && size >= 8 && Multiple(|data|, size)
    ensures BundleLoop(cfg, s, data, size, source, now).0
         == Fold(cfg, s, MembersHandled(cfg, s, data, size, source, now), source, now)
    decreases |data|
  {
    hide Handle, Receiver.Pending, Receiver.Listed, Decode1, Multiple, Fold;
    if |data| >= size && GetFrameType(data[0]) == 1 {
      var p := Decode1(data[..size]);
      HandleKeepsTable(cfg, s, p, source, now);
      StepDown(|data|, size);
      var (t, r) := Handle(cfg, s, p, source, now);
      if r == Ok || r == DuplicateFragment {
        BundleFolds(cfg, t, data[size..], size, source, now);
        FoldOne(cfg, s, p, MembersHandled(cfg, t, data[size..], size, source, now), source, now);
      } else {
        FoldOne(cfg, s, p, [], source, now);
        assert [p] + [] == [p];
      }
    } else {
      assert Fold(cfg, s, [], source, now) == s by { FoldNone(cfg, s, source, now); }
    }
  }

  lemma FoldNone(cfg: Settings, s: Receiver, source: Byte, now: int)
    requires s.TableOk()
    ensures Fold(cfg, s, [], source, now) == s
  {
  }

  /** Any packet, well-formed or not, does what its fragments do one after the other. */
  lemma DispatchFolds(cfg: Settings, s: Receiver, data: seq<Byte>, source: Byte, now: int)
    requires s.TableOk()
    ensures Dispatch(cfg, s, data, source, now).0 == Fold(cfg, s, Handled(cfg, s, data, source, now), source, now)
  {
    hide Handle, BundleLoop, MembersHandled, Receiver.Pending, Receiver.Listed, Decode, Multiple, Fold;
    FoldNone(cfg, s, source, now);
    if data != [] {
      if 1 <= GetFrameType(data[0]) <= 3 && Readable(data) {
        FoldOne(cfg, s, Decode(data), [], source, now);
      } else if GetFrameType(data[0]) == 4 && |data| >= 2 {
        var count := data[1] as nat;
        if count != 0 && (|data| - 2) % count == 0 && (|data| - 2) / count >= 8 {
          EqualParts(|data| - 2, count);
          BundleFolds(cfg, s, data[2..], (|data| - 2) / count, source, now);
        }
      }
    }
  }

  // ----- runs -----

  /** The single events are these packets, whatever true numbers they are given. */
  predicate Arrivals(plain: seq<Sequence.NumberedEvent>, ps: seq<Packet>, source: Byte, now: int) {
    |plain| == |ps| &&
    forall i | 0 <= i < |ps| :: plain[i].Incoming? && plain[i].p == ps[i] && plain[i].source == source
        && plain[i].now == now
  }

  function FragmentsOf(cfg: Settings, s: Receiver, e: Event): seq<Packet>
    requires s.TableOk()
  {
    if e.Arrive? then Handled(cfg, s, e.data, e.source, e.now) else []
  }

  function Ends(cfg: Settings, e: Event): seq<Sequence.NumberedEvent> {
    if Sweeps(cfg, e) then [Sequence.SweepAt(e.now, e.delay)] else []
  }

  /** `plain` is the run fragment by fragment, with each sweep in its place. */
  ghost predicate Unrolls(cfg: Settings, s: Receiver, events: seq<Event>, plain: seq<Sequence.NumberedEvent>)
    requires s.TableOk()
    decreases |events|
  {
    if events == [] then plain == []
    else
      var e := events[0];
      var n := |FragmentsOf(cfg, s, e)|;
      var m := n + |Ends(cfg, e)|;
      && m <= |plain|
      && Arrivals(plain[..n], FragmentsOf(cfg, s, e), if e.Arrive? then e.source else 0, e.now)
      && plain[n..m] == Ends(cfg, e)
      && Unrolls(cfg, Step(cfg, s, e), events[1..], plain[m..])
  }

  lemma {:induction false} ArrivalsFold(cfg: Settings, s: Receiver, plain: seq<Sequence.NumberedEvent>, ps: seq<Packet>,
                                        source: Byte, now: int)
    requires s.TableOk() && Arrivals(plain, ps, source, now)
    ensures Sequence.NumberedRun(cfg, s, plain) == Fold(cfg, s, ps, source, now)
    decreases |ps|
  {
    hide Handle, Receiver.TableOk;
    TableIsSized(s);
    if ps != [] {
      HandleKeepsTable(cfg, s, ps[0], source, now);
      assert plain[0].Incoming? && plain[0].p == ps[0];
      ArrivalsFold(cfg, Handle(cfg, s, ps[0], source, now).0, plain[1..], ps[1..], source, now);
    }
  }

  lemma {:induction false} RunJoin(cfg: Settings, s: Receiver, a: seq<Sequence.NumberedEvent>,
                                   b: seq<Sequence.NumberedEvent>)
    requires s.TableOk()
    ensures Sequence.NumberedRun(cfg, s, a + b) == Sequence.NumberedRun(cfg, Sequence.NumberedRun(cfg, s, a), b)
    decreases |a|
  {
    hide Sequence.Next, Receiver.TableOk;
    if a == [] {
      assert a + b == b;
    } else {
      assert (a + b)[1..] == a[1..] + b;
      RunJoin(cfg, Sequence.Next(cfg, s, a[0]), a[1..], b);
    }
  }

  /** One event and its fragments. */
  lemma StepUnrolls(cfg: Settings, s: Receiver, e: Event, plain: seq<Sequence.NumberedEvent>)
    requires s.TableOk() && Arrivals(plain, FragmentsOf(cfg, s, e), if e.Arrive? then e.source else 0, e.now)
    ensures Sequence.NumberedRun(cfg, s, plain + Ends(cfg, e)) == Step(cfg, s, e)
  {
    hide Handled, Fold, Dispatch, Sweep, Receiver.TableOk, Sweeps, Step;
    StepIs(cfg, s, e);
    var t := Sequence.NumberedRun(cfg, s, plain);
    ArrivalsFold(cfg, s, plain, FragmentsOf(cfg, s, e), if e.Arrive? then e.source else 0, e.now);
    if e.Arrive? { DispatchFolds(cfg, s, e.data, e.source, e.now); } else { FoldNone(cfg, s, 0, e.now); }
    assert t == Swept(cfg, s, e);
    RunJoin(cfg, s, plain, Ends(cfg, e));
    RunEnds(cfg, t, e);
  }

  lemma RunEnds(cfg: Settings, t: Receiver, e: Event)
    requires t.TableOk()
    ensures Sequence.NumberedRun(cfg, t, Ends(cfg, e)) == if Sweeps(cfg, e) then Sweep(cfg, t, e.now, e.delay) else t
  {
    hide Sweep, Receiver.TableOk, Sweeps;
    if Sweeps(cfg, e) {
      var sweep := Sequence.SweepAt(e.now, e.delay);
      assert Ends(cfg, e)[1..] == [];
      assert Sequence.NumberedRun(cfg, t, Ends(cfg, e)) == Sequence.NumberedRun(cfg, Sequence.Next(cfg, t, sweep), []);
    }
  }

  /** The first event and the rest of the run. */
  lemma FirstUnrolls(cfg: Settings, s: Receiver, events: seq<Event>,
                     plain: seq<Sequence.NumberedEvent>) returns (rest: seq<Sequence.NumberedEvent>)
    requires s.TableOk() && events != [] && Unrolls(cfg, s, events, plain)
    ensures Unrolls(cfg, Step(cfg, s, events[0]), events[1..], rest)
    ensures Sequence.NumberedRun(cfg, s, plain) == Sequence.NumberedRun(cfg, Step(cfg, s, events[0]), rest)
  {
    hide Step, FragmentsOf, Ends, Arrivals, Receiver.TableOk, Sequence.NumberedRun;
    var e := events[0];
    var n := |FragmentsOf(cfg, s, e)|;
    var m := n + |Ends(cfg, e)|;
    rest := plain[m..];
    var first := plain[..n] + Ends(cfg, e);
    StepUnrolls(cfg, s, e, plain[..n]);
    RunJoin(cfg, s, first, rest);
    assert plain == plain[..n] + plain[n..m] + plain[m..];
  }

  lemma {:induction false} RunUnrolls(cfg: Settings, s: Receiver, events: seq<Event>,
                                      plain: seq<Sequence.NumberedEvent>)
    requires s.TableOk() && Unrolls(cfg, s, events, plain)
    ensures Sequence.NumberedRun(cfg, s, plain) == Run(cfg, s, events)
    decreases |events|
  {
    hide Step, FragmentsOf, Ends, Arrivals, Receiver.TableOk;
    if events != [] {
      var rest := FirstUnrolls(cfg, s, events, plain);
      RunUnrolls(cfg, Step(cfg, s, events[0]), events[1..], rest);
    }
  }

  /** Every run has one, with whatever numbers. */
  lemma {:induction false} RunHasUnrolling(cfg: Settings, s: Receiver, events: seq<Event>, number: int)
    returns (plain: seq<Sequence.NumberedEvent>)
    requires s.TableOk()
    ensures Unrolls(cfg, s, events, plain)
    decreases |events|
  {
    hide Step, FragmentsOf, Ends, Receiver.TableOk;
    if events == [] {
      plain := [];
    } else {
      var e, ps := events[0], FragmentsOf(cfg, s, events[0]);
      var first := seq(|ps|, i requires 0 <= i < |ps| =>
        Sequence.Incoming(ps[i], number, if e.Arrive? then e.source else 0, e.now));
      var rest := RunHasUnrolling(cfg, Step(cfg, s, e), events[1..], number);
      plain := first + Ends(cfg, e) + rest;
      var n := |ps|;
      var m := n + |Ends(cfg, e)|;
      assert plain[..n] == first && plain[n..m] == Ends(cfg, e) && plain[m..] == rest;
    }
  }

  /** At most once on packets as bytes: any bytes may arrive, bundles and malformed packets included, in any
      mode; only the fragments that are handled have true numbers. */
  lemma BytesAtMostOnce(cfg: Settings, n: nat, events: seq<Event>, plain: seq<Sequence.NumberedEvent>,
                        tr: Sequence.Track)
    returns (offset: int)
    requires 0 < n && 0x1_0000 % n == 0 && tr.used == {} && tr.seen == {}
    requires Initial(n).TableOk() && Unrolls(cfg, Initial(n), events, plain)
    requires Sequence.NearRun(cfg, Initial(n), tr, plain)
    ensures Sequence.OncePerNumber(Run(cfg, Initial(n), events).delivered, offset, Sequence.NumbersOf(plain))
  {
    hide Initial, Receiver.TableOk, Unrolls, Run, Sequence.NearRun, Sequence.NumberedRun, Sequence.OncePerNumber,
         Sequence.NumbersOf;
    RunUnrolls(cfg, Initial(n), events, plain);
    offset := Sequence.AtMostOnce(cfg, n, tr, plain);
  }
}
