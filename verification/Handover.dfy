/** The receiver and its threads together: what a sweep delivers is what reaches the user's callback. */
module Handover {
  import opened Wire
  import opened Fragmenter
  import opened Ordering
  import opened Results
  import opened ReceiverSpec
  import opened ReceiverRuns
  import opened FrameOrder
  import D = Delivery

  /** The receiver's data and where its threads are. */
  datatype Whole = Whole(r: Receiver, t: D.State)

  /** A packet comes in, the worker starts a sweep at the head of its loop, or a thread makes any other step. */
  datatype Move =
    | Comes(data: seq<Byte>, source: Byte, now: int, delay: int -> int)
    | Starts(now: int, delay: int -> int)
    | Goes(a: D.Action)

  predicate AtHead(t: D.State) { t.w.WHead? && t.running }

  predicate CanMove(w: Whole, m: Move) {
    match m
    case Comes(_, _, _, _) => true
    case Starts(_, _) => AtHead(w.t)
    case Goes(a) => D.Enabled(w.t, a) && (a.Work? ==> !AtHead(w.t))
  }

  /** The frames that a sweep delivers. */
  function SweptFrames(cfg: Settings, r: Receiver, now: int, delay: int -> int): seq<Delivered>
    requires r.TableOk()
  {
    var t := Sweep(cfg, r, now, delay);
    if |r.delivered| <= |t.delivered| then t.delivered[|r.delivered|..] else []
  }

  function Next(cfg: Settings, w: Whole, m: Move): (v: Whole)
    requires w.r.TableOk() && CanMove(w, m)
    ensures v.r.TableOk()
  {
    match m
    case Comes(data, source, now, delay) => w.(r := Step(cfg, w.r, Arrive(data, source, now, delay)))
    case Starts(now, delay) =>
      Whole(Sweep(cfg, w.r, now, delay), D.Apply(w.t, D.Work(SweptFrames(cfg, w.r, now, delay))))
    case Goes(a) => w.(t := D.Apply(w.t, a))
  }

  predicate CanGo(cfg: Settings, w: Whole, moves: seq<Move>)
    requires w.r.TableOk()
    decreases |moves|
  {
    moves == [] || (CanMove(w, moves[0]) && CanGo(cfg, Next(cfg, w, moves[0]), moves[1..]))
  }

  function After(cfg: Settings, w: Whole, moves: seq<Move>): (v: Whole)
    requires w.r.TableOk() && CanGo(cfg, w, moves)
    ensures v.r.TableOk()
    decreases |moves|
  {
    if moves == [] then w else After(cfg, Next(cfg, w, moves[0]), moves[1..])
  }

  /** The frames that were due in the sweeps of this run, sweep by sweep, each as it stood, by ascending number. */
  function DueFrames(cfg: Settings, w: Whole, moves: seq<Move>): seq<Delivered>
    requires w.r.TableOk() && CanGo(cfg, w, moves)
    decreases |moves|
  {
    if moves == [] then []
    else
      (if moves[0].Starts? then Frames(w.r, Batch(cfg, w.r, moves[0].now)) else [])
        + DueFrames(cfg, Next(cfg, w, moves[0]), moves[1..])
  }

  lemma SweptAreDue(cfg: Settings, r: Receiver, now: int, delay: int -> int)
    requires r.TableOk()
    ensures SweptFrames(cfg, r, now, delay) == Frames(r, Batch(cfg, r, now))
  {
    hide Sweep, Batch, Frames, Receiver.TableOk;
    SweepDelivers(cfg, r, now, delay);
  }

  /** One move brings the due frames of the sweep that it starts on their way, and no others. */
  lemma MoveHands(cfg: Settings, w: Whole, m: Move)
    requires w.r.TableOk() && CanMove(w, m) && D.Inv(w.t) && !cfg.autoSweep
    ensures D.Inv(Next(cfg, w, m).t)
    ensures Next(cfg, w, m).r.delivered
         == w.r.delivered + if m.Starts? then Frames(w.r, Batch(cfg, w.r, m.now)) else []
    ensures D.OnTheWay(Next(cfg, w, m).t)
         == D.OnTheWay(w.t) + if m.Starts? then Frames(w.r, Batch(cfg, w.r, m.now)) else []
  {
    hide Step, Sweep, SweptFrames, Batch, Frames, Receiver.TableOk, D.Inv, D.Apply, D.OnTheWay, D.Enabled;
    assert D.OnTheWay(w.t) + [] == D.OnTheWay(w.t) && w.r.delivered + [] == w.r.delivered;
    match m {
      case Comes(data, source, now, delay) => StepIs(cfg, w.r, Arrive(data, source, now, delay));
      case Starts(now, delay) =>
        SweptAreDue(cfg, w.r, now, delay);
        SweepDelivers(cfg, w.r, now, delay);
        HeadEnabled(w.t, SweptFrames(cfg, w.r, now, delay));
        StepOnTheWay(w.t, D.Work(SweptFrames(cfg, w.r, now, delay)));
      case Goes(a) => StepOnTheWay(w.t, a);
    }
  }

  lemma HeadEnabled(t: D.State, frames: seq<Delivered>)
    requires AtHead(t)
    ensures D.Enabled(t, D.Work(frames))
  {
  }

  lemma StepOnTheWay(t: D.State, a: D.Action)
    requires D.Inv(t) && D.Enabled(t, a)
    ensures D.Inv(D.Apply(t, a))
    ensures D.OnTheWay(D.Apply(t, a)) == D.OnTheWay(t) + if a.Work? && AtHead(t) then a.frames else []
  {
    D.StepKeepsInv(t, a);
    D.StepHands(t, a);
    D.InOrderThen(t);
    D.InOrderThen(D.Apply(t, a));
  }

  lemma {:induction false} MovesHand(cfg: Settings, w: Whole, moves: seq<Move>)
    requires w.r.TableOk() && CanGo(cfg, w, moves) && D.Inv(w.t) && !cfg.autoSweep
    ensures D.Inv(After(cfg, w, moves).t)
    ensures After(cfg, w, moves).r.delivered == w.r.delivered + DueFrames(cfg, w, moves)
    ensures D.OnTheWay(After(cfg, w, moves).t) == D.OnTheWay(w.t) + DueFrames(cfg, w, moves)
    decreases |moves|
  {
    hide Next, D.Inv, D.OnTheWay, Batch, Frames, Receiver.TableOk, CanMove;
    if moves == [] {
      assert D.OnTheWay(w.t) + [] == D.OnTheWay(w.t) && w.r.delivered + [] == w.r.delivered;
    } else {
      MoveHands(cfg, w, moves[0]);
      var v := Next(cfg, w, moves[0]);
      MovesHand(cfg, v, moves[1..]);
      var first := if moves[0].Starts? then Frames(w.r, Batch(cfg, w.r, moves[0].now)) else [];
      D.Regroup(D.OnTheWay(w.t), first, DueFrames(cfg, v, moves[1..]));
      D.Regroup(w.r.delivered, first, DueFrames(cfg, v, moves[1..]));
    }
  }

  /** THREADED mode. In every state that packets, sweeps and threads can reach: the frames due in the sweeps so far are
      exactly those that the callback has received, the delivery thread has in hand, are queued, and the worker still
      holds, each once and in that order. Until stop is called at most `Away` further steps, none of them a new sweep
      with frames, bring every one of them to the callback; no other step takes one back. */
  lemma EveryDueFrameArrives(cfg: Settings, n: nat, moves: seq<Move>) returns (actions: seq<D.Action>)
    requires 0 < n && 0x1_0000 % n == 0 && Initial(n).TableOk() && !cfg.autoSweep
    requires CanGo(cfg, Whole(Initial(n), D.Started()), moves)
    ensures var w := After(cfg, Whole(Initial(n), D.Started()), moves);
      var due := DueFrames(cfg, Whole(Initial(n), D.Started()), moves);
      && w.r.delivered == due
      && w.t.called + D.InHand(w.t) + w.t.queue + D.WorkerFrames(w.t.w) == due
      && (w.t.s.SLock? ==>
            && D.CanRun(w.t, actions) && D.AllQuiet(w.t, actions) && |actions| <= D.Away(w.t)
            && D.Run(w.t, actions).called == due)
  {
    var w := Whole(Initial(n), D.Started());
    assert D.OnTheWay(w.t) == [] && w.r.delivered == [] && D.Inv(w.t);
    hide Initial, After, CanGo, DueFrames, D.Inv, D.CanRun, D.Run, D.AllQuiet, D.Away, Receiver.TableOk, D.Started;
    MovesHand(cfg, w, moves);
    assert [] + DueFrames(cfg, w, moves) == DueFrames(cfg, w, moves);
    var v := After(cfg, w, moves);
    if v.t.s.SLock? { actions := D.Arrives(v.t); } else { actions := []; }
  }
}
