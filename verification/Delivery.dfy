/** The delivery thread, the worker thread and `stop` (efp.h, THREADED mode) as interleaved atomic steps:
    one mutex, one condition variable, a queue of frames and its ready flag. */
module Delivery {
  import opened ReceiverSpec

  datatype Owner = Nobody | ByDelivery | ByWorker | ByStopper

  /** deliveryLoop. In `Waiting` the thread sleeps in the condition variable without the mutex; `Woken`
      has left the sleep and wants the mutex back. `Popped` still holds it, `Calling` does not. */
  datatype DeliveryAt =
    | DHead | DLock | Checking | Waiting | Woken | Taking | Popped(frame: Delivered)
    | Calling(frame: Delivered) | DExited

  /** workerLoop: a sweep hands over its frames one by one; pushing, raising the flag, notifying and
      unlocking are separate steps. */
  datatype WorkerAt =
    | WHead | Sweeping(frames: seq<Delivered>) | Pushing(frames: seq<Delivered>) | Raising(frames: seq<Delivered>)
    | Notifying(frames: seq<Delivered>) | WUnlock(frames: seq<Delivered>) | WExited

  /** stop, called by one thread. */
  datatype StopperAt = SLock | Clearing | SUnlock | NotifyAll | JoinWorker | JoinDelivery | Stopped

  datatype State = State(queue: seq<Delivered>, ready: bool, running: bool, owner: Owner,
                         d: DeliveryAt, w: WorkerAt, s: StopperAt,
                         pushed: seq<Delivered>, called: seq<Delivered>)

  /** One step of a thread. A sweep may find any frames; a sleeping thread may wake for no reason. */
  datatype Action = Deliver | Work(frames: seq<Delivered>) | Stop | Spurious

  predicate Enabled(s: State, a: Action) {
    match a
    case Deliver =>
      if s.d.DLock? || s.d.Woken? then s.owner.Nobody? else !s.d.Waiting? && !s.d.DExited?
    case Work(_) =>
      if s.w.Sweeping? && s.w.frames != [] then s.owner.Nobody? else !s.w.WExited?
    case Stop =>
      match s.s {
        case SLock => s.owner.Nobody?
        case JoinWorker => s.w.WExited?
        case JoinDelivery => s.d.DExited?
        case Stopped => false
        case _ => true
      }
    case Spurious => s.d.Waiting?
  }

  function DeliveryStep(s: State): State
    requires Enabled(s, Deliver)
  {
    match s.d
    case DHead => s.(d := if s.running then DLock else DExited)
    case DLock => s.(owner := ByDelivery, d := Checking)
    case Woken => s.(owner := ByDelivery, d := Checking)
    case Checking =>
      // The wait gives up the mutex and falls asleep in one step.
      if s.ready || !s.running then s.(d := Taking) else s.(owner := Nobody, d := Waiting)
    case Taking =>
      if s.queue == [] then
        if s.running then s.(ready := false, owner := Nobody, d := DHead) else s.(owner := Nobody, d := DExited)
      else s.(queue := s.queue[1..], d := Popped(s.queue[0]))
    case Popped(f) => s.(ready := s.ready && s.queue != [], owner := Nobody, d := Calling(f))
    case Calling(f) => s.(called := s.called + [f], d := DHead)
  }

  function Awake(d: DeliveryAt): DeliveryAt { if d.Waiting? then Woken else d }

  function WorkerStep(s: State, frames: seq<Delivered>): State
    requires Enabled(s, Work(frames))
  {
    match s.w
    case WHead => s.(w := if s.running then Sweeping(frames) else WExited)
    case Sweeping(left) => if left == [] then s.(w := WHead) else s.(owner := ByWorker, w := Pushing(left))
    case Pushing(left) =>
      if left == [] then s.(w := WUnlock([]))
      else s.(queue := s.queue + [left[0]], pushed := s.pushed + [left[0]], w := Raising(left[1..]))
    case Raising(left) => s.(ready := true, w := Notifying(left))
    case Notifying(left) => s.(d := Awake(s.d), w := WUnlock(left))
    case WUnlock(left) => s.(owner := Nobody, w := Sweeping(left))
  }

  function StopperStep(s: State): State
    requires Enabled(s, Stop)
  {
    match s.s
    case SLock => s.(owner := ByStopper, s := Clearing)
    case Clearing => s.(running := false, s := SUnlock)
    case SUnlock => s.(owner := Nobody, s := NotifyAll)
    case NotifyAll => s.(d := Awake(s.d), s := JoinWorker)
    case JoinWorker => s.(s := JoinDelivery)
    case JoinDelivery => s.(s := Stopped)
  }

  function Apply(s: State, a: Action): State
    requires Enabled(s, a)
  {
    match a
    case Deliver => DeliveryStep(s)
    case Work(frames) => WorkerStep(s, frames)
    case Stop => StopperStep(s)
    case Spurious => s.(d := Woken)
  }

  function Started(): State {
    State([], false, true, Nobody, DHead, WHead, SLock, [], [])
  }

  // ----- the invariant -----

  /** The mutex has at most one holder, and each thread is where its holder must be. */
  predicate Exclusive(s: State) {
    && (s.owner.ByDelivery? <==> s.d.Checking? || s.d.Taking? || s.d.Popped?)
    && (s.owner.ByWorker? <==> s.w.Pushing? || s.w.Raising? || s.w.Notifying? || s.w.WUnlock?)
    && (s.owner.ByStopper? <==> s.s.Clearing? || s.s.SUnlock?)
    && (s.w.Pushing? ==> s.w.frames != [])
  }

  /** Outside the two short windows in which a holder of the mutex has touched only the queue, the flag
      says whether there are frames. */
  predicate FlagTells(s: State) {
    && (s.ready && !s.d.Popped? ==> s.queue != [])
    && (s.w.Raising? ==> s.queue != [])
    && (s.queue != [] && !s.w.Raising? ==> s.ready)
    && (s.d.Taking? && s.running ==> s.ready)
  }

  predicate RunningUntilCleared(s: State) { s.running <==> s.s.SLock? || s.s.Clearing? }

  /** A sleeping delivery thread whose predicate holds has a notification still to come. */
  predicate WakeupDue(s: State) {
    && (s.d.Waiting? && s.ready ==> s.w.Notifying?)
    && (s.d.Waiting? && !s.running ==> s.s.SUnlock? || s.s.NotifyAll?)
  }

  function InHand(s: State): seq<Delivered> { if s.d.Popped? || s.d.Calling? then [s.d.frame] else [] }

  /** Every frame pushed was handed to the callback, is in hand, or is queued, in that order. */
  predicate InOrder(s: State) { s.pushed == s.called + InHand(s) + s.queue }

  /** stop returns only after both threads are gone. */
  predicate Joined(s: State) {
    && (s.d.DExited? || s.w.WExited? ==> !s.running)
    && (s.s.JoinDelivery? || s.s.Stopped? ==> s.w.WExited?)
    && (s.s.Stopped? ==> s.d.DExited?)
  }

  predicate Inv(s: State) {
    Exclusive(s) && FlagTells(s) && RunningUntilCleared(s) && WakeupDue(s) && InOrder(s) && Joined(s)
  }

  lemma StepKeepsOrder(s: State, a: Action)
    requires Exclusive(s) && InOrder(s) && Enabled(s, a)
    ensures InOrder(Apply(s, a))
  {
    if a.Work? && s.w.Pushing? {
      assert s.called + InHand(s) + (s.queue + [s.w.frames[0]]) == s.called + InHand(s) + s.queue + [s.w.frames[0]];
    } else if a.Deliver? && s.d.Taking? && s.queue != [] {
      assert s.queue == [s.queue[0]] + s.queue[1..];
    }
  }

  lemma StepKeepsInv(s: State, a: Action)
    requires Inv(s) && Enabled(s, a)
    ensures Inv(Apply(s, a))
  {
    StepKeepsOrder(s, a);
    hide InOrder;
    match a {
      case Deliver =>
      case Work(_) =>
      case Stop =>
      case Spurious =>
    }
  }

  // ----- runs -----

  predicate CanRun(s: State, actions: seq<Action>)
    decreases |actions|
  {
    actions == [] || (Enabled(s, actions[0]) && CanRun(Apply(s, actions[0]), actions[1..]))
  }

  function Run(s: State, actions: seq<Action>): State
    requires CanRun(s, actions)
    decreases |actions|
  {
    if actions == [] then s else Run(Apply(s, actions[0]), actions[1..])
  }

  lemma {:induction false} RunKeepsInv(s: State, actions: seq<Action>)
    requires Inv(s) && CanRun(s, actions)
    ensures Inv(Run(s, actions))
    decreases |actions|
  {
    if actions != [] {
      StepKeepsInv(s, actions[0]);
      hide Inv, Enabled, Apply;
      RunKeepsInv(Apply(s, actions[0]), actions[1..]);
    }
  }

  /** In every state that the three threads can reach: the flag equals "frames are queued" whenever the
      mutex is free, a sleeping delivery thread never misses its wake-up, and the frames handed to the
      callback are a prefix of the frames pushed. */
  lemma Reachable(actions: seq<Action>)
    requires CanRun(Started(), actions)
    ensures var s := Run(Started(), actions);
      && (s.owner.Nobody? ==> (s.ready <==> s.queue != []))
      && WakeupDue(s)
      && s.called <= s.pushed
  {
    RunKeepsInv(Started(), actions);
    hide CanRun, Run;
  }

  // ----- what the sweeps hand over -----

  function WorkerFrames(w: WorkerAt): seq<Delivered> {
    match w case WHead => [] case WExited => [] case _ => w.frames
  }

  /** The frames of the sweeps that the worker starts in this run: what `processTimeouts` delivers each time the loop
      finds the receiver running. */
  function Swept(s: State, actions: seq<Action>): seq<Delivered>
    requires CanRun(s, actions)
    decreases |actions|
  {
    if actions == [] then []
    else
      (if actions[0].Work? && s.w.WHead? && s.running then actions[0].frames else [])
        + Swept(Apply(s, actions[0]), actions[1..])
  }

  lemma StepHands(s: State, a: Action)
    requires Exclusive(s) && Enabled(s, a)
    ensures Apply(s, a).pushed + WorkerFrames(Apply(s, a).w)
         == s.pushed + WorkerFrames(s.w) + if a.Work? && s.w.WHead? && s.running then a.frames else []
  {
    hide Awake;
    var had := s.pushed + WorkerFrames(s.w);
    assert had + [] == had;
    if a.Work? {
      match s.w
      case WHead => assert s.pushed + [] == s.pushed;
      case Pushing(left) =>
        assert left == [left[0]] + left[1..];
        assert s.pushed + [left[0]] + left[1..] == s.pushed + ([left[0]] + left[1..]);
      case _ =>
    }
  }

  lemma Regroup(a: seq<Delivered>, b: seq<Delivered>, c: seq<Delivered>)
    ensures (a + b) + c == a + (b + c)
  {
  }

  /** Nothing of a sweep is lost or reordered by the worker: what it has pushed and what it still holds are the frames
      of its sweeps, one after the other. */
  lemma {:induction false} RunHands(s: State, actions: seq<Action>)
    requires Inv(s) && CanRun(s, actions)
    ensures var t := Run(s, actions); t.pushed + WorkerFrames(t.w) == s.pushed + WorkerFrames(s.w) + Swept(s, actions)
    decreases |actions|
  {
    if actions == [] {
      assert s.pushed + WorkerFrames(s.w) + [] == s.pushed + WorkerFrames(s.w);
    } else {
      var t, first := Apply(s, actions[0]),
          if actions[0].Work? && s.w.WHead? && s.running then actions[0].frames else [];
      StepHands(s, actions[0]);
      StepKeepsInv(s, actions[0]);
      hide Inv, Enabled, Apply, WorkerFrames;
      RunHands(t, actions[1..]);
      Regroup(s.pushed + WorkerFrames(s.w), first, Swept(t, actions[1..]));
    }
  }

  /** What the callback has received, the delivery thread has in hand, is queued, and is still with the worker. */
  function OnTheWay(s: State): seq<Delivered> { s.called + InHand(s) + s.queue + WorkerFrames(s.w) }

  /** So every frame of every sweep is on its way to the callback, once and in the order of the sweeps. */
  lemma SweepsOnTheWay(actions: seq<Action>)
    requires CanRun(Started(), actions)
    ensures OnTheWay(Run(Started(), actions)) == Swept(Started(), actions)
  {
    RunKeepsInv(Started(), actions);
    RunHands(Started(), actions);
    assert [] + [] + Swept(Started(), actions) == Swept(Started(), actions);
    InOrderThen(Run(Started(), actions));
    hide CanRun, Run, Swept;
  }

  lemma InOrderThen(s: State)
    requires Inv(s)
    ensures s.pushed == s.called + InHand(s) + s.queue
  {
  }

  // ----- it arrives -----

  function DeliveryAway(d: DeliveryAt): nat {
    match d
    case Popped(_) => 6 case Calling(_) => 5 case DHead => 4 case DLock => 3 case Woken => 3 case Checking => 2
    case Taking => 1 case Waiting => 1 case DExited => 0
  }

  function WorkerAway(w: WorkerAt): nat {
    match w
    case WHead => 0 case WExited => 0
    case Sweeping(left) => if left == [] then 0 else 1
    case Pushing(_) => 0
    case Raising(_) => 4 case Notifying(_) => 3 case WUnlock(_) => 2
  }

  /** How far the frames are from the callback, in steps that bring one of them on. */
  function Away(s: State): nat {
    24 * |WorkerFrames(s.w)| + 8 * |s.queue| + 3 * WorkerAway(s.w) + DeliveryAway(s.d)
  }

  /** Neither stop nor a new sweep with frames, nor a wake-up for no reason. */
  predicate Quiet(s: State, a: Action) {
    a.Deliver? || (a.Work? && (s.w.WHead? ==> a.frames == []))
  }

  /** Without stop, no step takes a frame back, and each step of the delivery thread brings it on. */
  lemma NoSetback(s: State, a: Action)
    requires Inv(s) && s.s.SLock? && Enabled(s, a) && Quiet(s, a)
    ensures Away(Apply(s, a)) <= Away(s)
    ensures a.Deliver? ==> Away(Apply(s, a)) < Away(s)
  {
    hide InOrder, WakeupDue, Joined;
  }

  /** Some step does that as long as a frame has not reached the callback: a thread that holds the mutex goes on, or
      the worker hands over, or the delivery thread takes. */
  function Helper(s: State): Action {
    if s.owner.ByDelivery? then Deliver
    else if s.owner.ByWorker? || WorkerFrames(s.w) != [] then Work([])
    else Deliver
  }

  lemma Progress(s: State)
    requires Inv(s) && s.s.SLock? && s.called != OnTheWay(s)
    ensures Enabled(s, Helper(s)) && Quiet(s, Helper(s)) && Away(Apply(s, Helper(s))) < Away(s)
  {
    hide InOrder;
    assert s.called + InHand(s) + s.queue + [] == s.called + InHand(s) + s.queue;
    assert s.called + [] + [] + [] == s.called;
  }

  lemma QuietKeeps(s: State, a: Action)
    requires Inv(s) && s.s.SLock? && Enabled(s, a) && Quiet(s, a)
    ensures Inv(Apply(s, a)) && Apply(s, a).s.SLock? && OnTheWay(Apply(s, a)) == OnTheWay(s)
  {
    StepKeepsInv(s, a);
    StepHands(s, a);
    InOrderThen(s);
    InOrderThen(Apply(s, a));
    assert s.pushed + WorkerFrames(s.w) + [] == s.pushed + WorkerFrames(s.w);
  }

  predicate AllQuiet(s: State, actions: seq<Action>)
    requires CanRun(s, actions)
    decreases |actions|
  {
    actions == [] || (Quiet(s, actions[0]) && AllQuiet(Apply(s, actions[0]), actions[1..]))
  }

  /** From every state before stop, at most `Away(s)` such steps bring everything to the callback. */
  lemma {:induction false} Arrives(s: State) returns (actions: seq<Action>)
    requires Inv(s) && s.s.SLock?
    ensures CanRun(s, actions) && AllQuiet(s, actions) && |actions| <= Away(s)
    ensures Run(s, actions).called == OnTheWay(s)
    decreases Away(s)
  {
    hide Inv, Enabled, Apply, Away, OnTheWay, Quiet;
    if s.called == OnTheWay(s) {
      actions := [];
    } else {
      var a := Helper(s);
      Progress(s);
      QuietKeeps(s, a);
      var rest := Arrives(Apply(s, a));
      actions := [a] + rest;
      assert actions[1..] == rest;
    }
  }

  // ----- no deadlock -----

  /** A thread that can make a step without anybody calling stop and without a spurious wake-up. */
  function Mover(s: State): Action {
    if s.owner.ByDelivery? then Deliver
    else if s.owner.ByWorker? then Work([])
    else if s.owner.ByStopper? then Stop
    else if !s.w.WExited? then Work([])
    else if s.s.NotifyAll? || s.s.JoinWorker? then Stop
    else if !s.d.DExited? then Deliver
    else Stop
  }

  /** Until stop has returned, some thread can always go on: nobody waits for ever. */
  lemma NoDeadlock(s: State)
    requires Inv(s) && !s.s.Stopped?
    ensures Enabled(s, Mover(s))
    ensures Mover(s).Stop? ==> !s.s.SLock?
  {
  }

  function DeliveryLeft(d: DeliveryAt): nat {
    match d
    case Waiting => 7 case Woken => 6 case DLock => 6 case Checking => 5 case Taking => 4
    case Popped(_) => 3 case Calling(_) => 2 case DHead => 1 case DExited => 0
  }

  function WorkerLeft(w: WorkerAt): nat {
    match w
    case Sweeping(left) => 5 * |left| + 2
    case Pushing(left) => 5 * |left| + 1
    case Raising(left) => 5 * |left| + 5
    case Notifying(left) => 5 * |left| + 4
    case WUnlock(left) => 5 * |left| + 3
    case WHead => 1
    case WExited => 0
  }

  function StopperLeft(s: StopperAt): nat {
    match s
    case SLock => 6 case Clearing => 5 case SUnlock => 4 case NotifyAll => 3 case JoinWorker => 2
    case JoinDelivery => 1 case Stopped => 0
  }

  /** The steps left once stop has cleared the running flag. */
  function Left(s: State): nat { DeliveryLeft(s.d) + WorkerLeft(s.w) + StopperLeft(s.s) }

  lemma StepsDown(s: State, a: Action)
    requires Inv(s) && !s.running && Enabled(s, a)
    ensures !Apply(s, a).running && Left(Apply(s, a)) < Left(s)
  {
    hide InOrder, WakeupDue, Joined;
    match a {
      case Deliver =>
      case Work(_) =>
      case Stop =>
      case Spurious =>
    }
  }

  /** Shutdown ends: once stop has cleared the flag, whatever the scheduler does, all three threads
      together make at most `Left(s)` more steps ... */
  lemma {:induction false} ShutdownEnds(s: State, actions: seq<Action>)
    requires Inv(s) && !s.running && CanRun(s, actions)
    ensures |actions| <= Left(s)
    decreases |actions|
  {
    if actions != [] {
      StepsDown(s, actions[0]);
      StepKeepsInv(s, actions[0]);
      hide Inv, Enabled, Apply, Left;
      ShutdownEnds(Apply(s, actions[0]), actions[1..]);
    }
  }

  /** ... and they can only stop making them with both threads joined and stop returned. */
  lemma ShutdownCompletes(s: State)
    requires Inv(s) && forall a: Action :: a.Stop? || a.Deliver? || a == Work([]) ==> !Enabled(s, a)
    ensures s.s.Stopped? && s.d.DExited? && s.w.WExited?
  {
    if !s.s.Stopped? { NoDeadlock(s); }
  }

  // ----- what shutdown delivers -----

  /** How many frames the delivery thread can still take once the running flag is cleared: it tests the flag
      before every round, so at most the round it is in. */
  function Rounds(d: DeliveryAt): nat {
    match d
    case DLock => 1 case Woken => 1 case Waiting => 1 case Checking => 1 case Taking => 1 case _ => 0
  }

  /** More frames are left than can be taken. */
  predicate Doomed(s: State) { |s.queue| + |WorkerFrames(s.w)| > Rounds(s.d) }

  /** No frame is still to come, and at most the one that the current round takes is queued. */
  predicate Settled(s: State) { WorkerFrames(s.w) == [] && |s.queue| <= Rounds(s.d) }

  ghost predicate Shutting(s: State) { Inv(s) && !s.running }

  lemma ShutStep(s: State, a: Action)
    requires Shutting(s) && Enabled(s, a)
    ensures Shutting(Apply(s, a))
    ensures Doomed(s) ==> Doomed(Apply(s, a))
    ensures Settled(s) ==> Settled(Apply(s, a))
  {
    StepKeepsInv(s, a);
    StepsDown(s, a);
    hide Inv, InOrder, WakeupDue, Joined;
    assert Exclusive(s) by { InvExclusive(s); }
  }

  lemma InvExclusive(s: State)
    requires Inv(s)
    ensures Exclusive(s) && RunningUntilCleared(s) && InOrder(s) && Joined(s)
  {
  }

  lemma {:induction false} ShutRun(s: State, actions: seq<Action>)
    requires Shutting(s) && CanRun(s, actions)
    ensures Shutting(Run(s, actions))
    ensures Doomed(s) ==> Doomed(Run(s, actions))
    ensures Settled(s) ==> Settled(Run(s, actions))
    decreases |actions|
  {
    hide Inv, Doomed, Settled, Enabled, Apply;
    if actions != [] {
      ShutStep(s, actions[0]);
      ShutRun(Apply(s, actions[0]), actions[1..]);
    }
  }

  /** With both threads gone, all frames were delivered exactly if none is queued. */
  lemma AtTheEnd(s: State)
    requires Inv(s) && s.s.Stopped?
    ensures s.called == s.pushed <==> s.queue == []
    ensures Doomed(s) <==> s.queue != []
    ensures Settled(s) <==> s.queue == []
  {
    assert s.pushed == s.called + s.queue;
  }

  /** Every schedule can be completed. */
  lemma {:induction false} Completion(s: State) returns (actions: seq<Action>)
    requires Shutting(s)
    ensures CanRun(s, actions) && Run(s, actions).s.Stopped?
    decreases Left(s)
  {
    hide Inv, Enabled, Apply, Left;
    if s.s.Stopped? {
      actions := [];
    } else {
      NoDeadlock(s);
      StepsDown(s, Mover(s));
      StepKeepsInv(s, Mover(s));
      var rest := Completion(Apply(s, Mover(s)));
      actions := [Mover(s)] + rest;
      assert actions[1..] == rest;
    }
  }

  /** However the threads are scheduled until stop returns, the user gets every frame. */
  ghost predicate AllDelivered(s: State) {
    forall actions | CanRun(s, actions) && Run(s, actions).s.Stopped? ::
        Run(s, actions).called == Run(s, actions).pushed
  }

  lemma SettledDelivers(s: State)
    requires Shutting(s) && Settled(s)
    ensures AllDelivered(s)
  {
    hide Inv, Settled, CanRun, Run;
    forall actions | CanRun(s, actions) && Run(s, actions).s.Stopped?
      ensures Run(s, actions).called == Run(s, actions).pushed
    {
      ShutRun(s, actions);
      AtTheEnd(Run(s, actions));
    }
  }

  lemma DoomedLoses(s: State, first: seq<Action>)
    requires Shutting(s) && CanRun(s, first) && Doomed(Run(s, first))
    ensures !AllDelivered(s)
  {
    hide Inv, Settled, Doomed, CanRun, Run;
    ShutRun(s, first);
    var t := Run(s, first);
    var rest := Completion(t);
    ShutRun(t, rest);
    AtTheEnd(Run(t, rest));
    RunJoin(s, first, rest);
  }

  /** The delivery thread leaves before the worker hands over its frames. */
  lemma LeaveFirst(s: State) returns (actions: seq<Action>)
    requires Shutting(s) && s.s.SUnlock? && s.queue == [] && WorkerFrames(s.w) != []
    ensures CanRun(s, actions) && Doomed(Run(s, actions))
  {
    if Rounds(s.d) == 0 {
      actions := [];
    } else {
      actions := Then(s, [], Stop);
      hide CanRun, Run, Inv;
      if s.d.Waiting? { actions := Then(s, actions, Spurious); }
      actions := Then(s, actions, Deliver);
      actions := Then(s, actions, Deliver);
      actions := Then(s, actions, Deliver);
    }
  }

  /** Exactly when nothing is lost, seen from the state in which stop has just cleared the running flag:
      the worker has handed over everything, and either the queue is empty or it holds one frame that the
      delivery thread is about to take, past its test of the flag. */
  lemma ShutdownDelivers(s: State)
    requires Inv(s) && s.s.SUnlock?
    ensures AllDelivered(s) <==>
      WorkerFrames(s.w) == [] && (s.queue == [] || (|s.queue| == 1 && (s.d.DLock? || s.d.Woken?)))
  {
    assert Shutting(s);
    AfterClearing(s);
    hide Inv, AllDelivered, CanRun, Run;
    if Settled(s) {
      SettledDelivers(s);
    } else if Doomed(s) {
      assert Run(s, []) == s && CanRun(s, []) by { NoActions(s); }
      DoomedLoses(s, []);
    } else {
      var first := LeaveFirst(s);
      DoomedLoses(s, first);
    }
  }

  lemma NoActions(s: State)
    ensures CanRun(s, []) && Run(s, []) == s
  {
  }

  /** While stop holds the mutex the other two are outside, and a sleeper has seen an empty queue. */
  lemma AfterClearing(s: State)
    requires Inv(s) && s.s.SUnlock?
    ensures s.d.DHead? || s.d.DLock? || s.d.Waiting? || s.d.Woken? || s.d.Calling? || s.d.DExited?
    ensures s.w.WHead? || s.w.Sweeping? || s.w.WExited?
    ensures s.d.Waiting? ==> s.queue == []
  {
  }

  lemma {:induction false} RunJoin(s: State, a: seq<Action>, b: seq<Action>)
    requires CanRun(s, a) && CanRun(Run(s, a), b)
    ensures CanRun(s, a + b) && Run(s, a + b) == Run(Run(s, a), b)
    decreases |a|
  {
    hide Enabled, Apply;
    if a == [] {
      assert a + b == b;
    } else {
      assert (a + b)[1..] == a[1..] + b;
      RunJoin(Apply(s, a[0]), a[1..], b);
    }
  }

  lemma Then(start: State, actions: seq<Action>, a: Action) returns (more: seq<Action>)
    requires CanRun(start, actions) && Enabled(Run(start, actions), a)
    ensures CanRun(start, more) && Run(start, more) == Apply(Run(start, actions), a)
  {
    var s := Run(start, actions);
    assert Run(s, [a]) == Run(Apply(s, a), []);
    RunJoin(start, actions, [a]);
    more := actions + [a];
  }

  /** The delivery loop tests the running flag before the queue: a frame queued when stop comes can be
      left undelivered although both threads are joined. */
  lemma FrameLeftBehind(f: Delivered) returns (actions: seq<Action>)
    ensures CanRun(Started(), actions)
    ensures var s := Run(Started(), actions); s.s.Stopped? && s.pushed == [f] && s.called == []
  {
    actions := PushOne(f);
    hide CanRun, Run;
    actions := Then(Started(), actions, Stop);
    actions := Then(Started(), actions, Stop);
    actions := Then(Started(), actions, Stop);
    actions := Then(Started(), actions, Stop);
    actions := Then(Started(), actions, Deliver);
    actions := Then(Started(), actions, Work([]));
    actions := Then(Started(), actions, Work([]));
    actions := Then(Started(), actions, Stop);
    actions := Then(Started(), actions, Stop);
  }

  /** One sweep hands over one frame. */
  lemma PushOne(f: Delivered) returns (actions: seq<Action>)
    ensures CanRun(Started(), actions)
    ensures Run(Started(), actions) == State([f], true, true, Nobody, DHead, Sweeping([]), SLock, [f], [])
  {
    actions := Then(Started(), [], Work([f]));
    hide CanRun, Run;
    actions := Then(Started(), actions, Work([]));
    actions := Then(Started(), actions, Work([]));
    actions := Then(Started(), actions, Work([]));
    actions := Then(Started(), actions, Work([]));
    actions := Then(Started(), actions, Work([]));
    assert [f][1..] == [] && [] + [f] == [f];
  }
}
