/** The per-stream bandwidth machine of bandwidth_manager.h: multipliers, drops and manual overrides under
    changes of network health. */
module Bandwidth {
  datatype Health = Healthy | Degraded | Congested | Severe {
    function Level(): nat {
      match this case Healthy => 0 case Degraded => 1 case Congested => 2 case Severe => 3
    }

    /** What a probing step makes of it. */
    function Better(): Health {
      match this case Severe => Congested case Congested => Degraded case _ => Healthy
    }
  }

  datatype StreamConfig = StreamConfig(min: real, max: real, dropOnSevere: bool, priority: nat) {
    predicate Valid() { min <= max }
  }

  const DEFAULT := StreamConfig(0.0, 1.0, false, 128)

  function Clamp(x: real, lo: real, hi: real): (r: real)
    requires lo <= hi
    ensures lo <= r <= hi && (lo <= x <= hi ==> r == x)
  {
    if x < lo then lo else if hi < x then hi else x
  }

  function Distance(x: real, y: real): real { if x <= y then y - x else x - y }

  /** No point of the range is nearer to the aim than `x`. */
  ghost predicate Nearest(x: real, aim: real, lo: real, hi: real) {
    lo <= x <= hi && forall y | lo <= y <= hi :: Distance(x, aim) <= Distance(y, aim)
  }

  lemma ClampIsNearest(aim: real, lo: real, hi: real, x: real)
    requires lo <= hi
    ensures Nearest(x, aim, lo, hi) <==> x == Clamp(aim, lo, hi)
  {
    if Nearest(x, aim, lo, hi) {
      assert Distance(x, aim) <= Distance(Clamp(aim, lo, hi), aim);
    }
  }

  /** The multiplier each health state aims at, before the stream's own range is applied. */
  function Nominal(h: Health, least: real): real {
    match h case Healthy => 1.0 case Degraded => 0.7 case Congested => 0.5 case Severe => least
  }

  /** One stream's share of the four arrays. A negative `manual` means no override. */
  datatype Stream = Stream(config: StreamConfig, mult: real, dropped: bool, manual: real) {
    predicate Valid() { config.Valid() }

    function Target(h: Health): real
      requires Valid()
    {
      Clamp(Nominal(h, config.min), config.min, config.max)
    }

    /** The target is the point of the stream's range nearest to what the health aims at, and the only one;
        it does not rise as health worsens, and at its worst it is the lower bound. */
    lemma TargetIsNearest(h: Health)
      requires Valid()
      ensures forall x :: Nearest(x, Nominal(h, config.min), config.min, config.max) <==> x == Target(h)
      ensures config.min <= Target(h) <= config.max
      ensures forall g: Health | g.Level() <= h.Level() :: Target(h) <= Target(g)
      ensures Target(Severe) == config.min
    {
      var aim := Nominal(h, config.min);
      forall x ensures Nearest(x, aim, config.min, config.max) <==> x == Target(h) {
        ClampIsNearest(aim, config.min, config.max, x);
      }
    }

    /** Health worsens to `h`. */
    function Worse(h: Health): Stream
      requires Valid()
    {
      if manual >= 0.0 then this
      else this.(mult := if Target(h) < mult then Target(h) else mult,
                 dropped := dropped || (h.Severe? && config.dropOnSevere))
    }

    /** Health improves to `h`. */
    function Better(h: Health, step: real): Stream
      requires Valid()
    {
      if manual >= 0.0 then this
      else
        var raised := if mult + step < Target(h) then mult + step else Target(h);
        this.(mult := Clamp(raised, config.min, config.max), dropped := dropped && h.Severe?)
    }

    /** After a change of the stream's own settings. */
    function Updated(h: Health): Stream
      requires Valid()
    {
      this.(mult := if manual >= 0.0 then Clamp(manual, config.min, config.max) else Target(h))
    }

    /** Within its bounds; at the override if there is one, and else no higher than health allows. */
    predicate Ok(h: Health) {
      && Valid() && config.min <= mult <= config.max
      && (manual >= 0.0 ==> mult == Clamp(manual, config.min, config.max))
      && (manual < 0.0 ==> mult <= Target(h))
    }
  }

  /** A call of one of the two user callbacks. */
  datatype Call = Changed(stream: nat, mult: real) | Dropped(stream: nat, dropped: bool)

  datatype Manager = Manager(health: Health, streams: seq<Stream>, calls: seq<Call>) {
    predicate Valid() { AllValid(streams) }
  }

  function Initial(): Manager { Manager(Healthy, seq(256, i => Stream(DEFAULT, 1.0, false, -1.0)), []) }

  /** The calls for one stream: exactly what changed, the multiplier first. */
  function CallsFor(i: nat, before: Stream, after: Stream): seq<Call> {
    (if before.mult != after.mult then [Changed(i, after.mult)] else [])
    + (if before.dropped != after.dropped then [Dropped(i, after.dropped)] else [])
  }

  lemma CallsJoin(calls: seq<Call>, i: nat, before: Stream, after: Stream)
    ensures calls + CallsFor(i, before, after)
      == calls + (if before.mult != after.mult then [Changed(i, after.mult)] else [])
               + (if before.dropped != after.dropped then [Dropped(i, after.dropped)] else [])
  {
  }

  /** The calls of a loop over streams 0..n-1. */
  function CallsUpto(before: seq<Stream>, after: seq<Stream>, n: nat): seq<Call>
    requires n <= |before| && n <= |after|
  {
    if n == 0 then [] else CallsUpto(before, after, n - 1) + CallsFor(n - 1, before[n - 1], after[n - 1])
  }

  // ----- operations -----

  function AllTo(m: Manager, h: Health, after: seq<Stream>): Manager
    requires |m.streams| == |after|
  {
    Manager(h, after, m.calls + CallsUpto(m.streams, after, |after|))
  }

  predicate AllValid(streams: seq<Stream>) { |streams| == 256 && forall i | 0 <= i < 256 :: streams[i].Valid() }

  function AllWorse(streams: seq<Stream>, h: Health): (after: seq<Stream>)
    requires AllValid(streams)
    ensures |after| == 256
  {
    seq(256, i requires 0 <= i < 256 => streams[i].Worse(h))
  }

  function AllBetter(streams: seq<Stream>, h: Health, step: real): (after: seq<Stream>)
    requires AllValid(streams)
    ensures |after| == 256
  {
    seq(256, i requires 0 <= i < 256 => streams[i].Better(h, step))
  }

  /** handleHealthChange. */
  function HealthChange(m: Manager, h: Health, step: real): Manager
    requires m.Valid()
  {
    if h.Level() > m.health.Level() then AllTo(m, h, AllWorse(m.streams, h))
    else if h.Level() < m.health.Level() then AllTo(m, h, AllBetter(m.streams, h, step))
    else m
  }

  /** tryBandwidthIncrease: one step up, and nothing any more once the network is healthy. */
  function Probe(m: Manager, step: real): Manager
    requires m.Valid()
  {
    if m.health.Healthy? then m
    else AllTo(m, m.health.Better(), AllBetter(m.streams, m.health.Better(), step))
  }

  /** updateStreamMultiplier after the stream's settings became those of `s`. */
  function Reset(m: Manager, i: nat, s: Stream): Manager
    requires m.Valid() && i < 256 && s.Valid()
  {
    m.(streams := m.streams[i := s.Updated(m.health)],
       calls := m.calls + CallsFor(i, m.streams[i], s.Updated(m.health)))
  }

  datatype Op =
    | Evaluate(health: Health) | ProbeStep
    | Configure(stream: nat, config: StreamConfig)
    | SetManual(stream: nat, mult: real) | ClearManual(stream: nat)
  {
    // An upper bound below the lower one is not allowed by std::clamp.
    predicate Allowed() {
      && (Configure? || SetManual? || ClearManual? ==> stream < 256)
      && (Configure? ==> config.Valid())
    }
  }

  function Apply(m: Manager, op: Op, step: real): Manager
    requires m.Valid() && op.Allowed()
  {
    match op
    case Evaluate(h) => HealthChange(m, h, step)
    case ProbeStep => Probe(m, step)
    case Configure(i, c) => Reset(m, i, m.streams[i].(config := c))
    case SetManual(i, x) => Reset(m, i, m.streams[i].(manual := Clamp(x, 0.0, 1.0)))
    case ClearManual(i) => Reset(m, i, m.streams[i].(manual := -1.0))
  }

  // ----- the class -----

  class BandwidthManager {
    const step: real
    const configs: array<StreamConfig>
    const multipliers: array<real>
    const dropped: array<bool>
    const manual: array<real>
    var health: Health
    // The invocations of the two callbacks so far.
    var calls: seq<Call>

    ghost predicate Shaped() {
      && configs.Length == multipliers.Length == dropped.Length == manual.Length == 256 && multipliers != manual
    }

    ghost function At(i: nat): Stream
      requires Shaped() && i < 256
      reads configs, multipliers, dropped, manual
    {
      Stream(configs[i], multipliers[i], dropped[i], manual[i])
    }

    ghost function Now(): Manager
      requires Shaped()
      reads this, configs, multipliers, dropped, manual
    {
      Manager(health, seq(256, i requires 0 <= i < 256 reads configs, multipliers, dropped, manual => At(i)), calls)
    }

    ghost predicate Valid()
      reads configs
    {
      Shaped() && forall i | 0 <= i < 256 :: configs[i].Valid()
    }

    lemma ValidNow()
      requires Valid()
      ensures Now().Valid() && forall i | 0 <= i < 256 :: Now().streams[i] == At(i)
    {
    }

    /** The other streams keep their values. */
    twostate predicate Same(i: nat)
      requires Shaped()
      reads configs, multipliers, dropped, manual
    {
      forall j | 0 <= j < 256 && j != i :: At(j) == old(At(j))
    }

    constructor (additiveIncrease: real)
      ensures Valid() && step == additiveIncrease && Now() == Initial()
      ensures fresh(configs) && fresh(multipliers) && fresh(dropped) && fresh(manual)
    {
      step := additiveIncrease;
      configs := new StreamConfig[256](i => DEFAULT);
      multipliers := new real[256](i => 1.0);
      dropped := new bool[256](i => false);
      manual := new real[256](i => -1.0);
      health, calls := Healthy, [];
    }

    method GetTargetMultiplier(i: nat, h: Health) returns (target: real)
      requires Valid() && i < 256
      ensures target == At(i).Target(h) && configs[i].min <= target <= configs[i].max
      ensures forall g: Health | g.Level() <= h.Level() :: target <= At(i).Target(g)
    {
      At(i).TargetIsNearest(h);
      match h {
        case Healthy => target := 1.0;
        case Degraded => target := 0.7;
        case Congested => target := 0.5;
        case Severe => target := configs[i].min;
      }
      target := Clamp(target, configs[i].min, configs[i].max);
    }

    method SetMultiplier(i: nat, mult: real)
      requires Shaped() && i < 256
      modifies this`calls, multipliers
      ensures multipliers[..] == old(multipliers[..])[i := mult]
      ensures calls == old(calls) + if old(multipliers[i]) != mult then [Changed(i, mult)] else []
    {
      if mult != multipliers[i] {
        multipliers[i] := mult;
        calls := calls + [Changed(i, mult)];
      }
    }

    method SetDropped(i: nat, drop: bool)
      requires Shaped() && i < 256
      modifies this`calls, dropped
      ensures dropped[..] == old(dropped[..])[i := drop]
      ensures calls == old(calls) + if old(dropped[i]) != drop then [Dropped(i, drop)] else []
    {
      if drop != dropped[i] {
        dropped[i] := drop;
        calls := calls + [Dropped(i, drop)];
      }
    }

    /** One round of the loop that lowers the streams. */
    method WorsenStream(i: nat, h: Health)
      requires Valid() && i < 256
      modifies this`calls, multipliers, dropped
      ensures At(i) == old(At(i)).Worse(h) && Same(i)
      ensures calls == old(calls) + CallsFor(i, old(At(i)), old(At(i)).Worse(h))
    {
      CallsJoin(calls, i, At(i), At(i).Worse(h));
      if manual[i] < 0.0 {
        var target := GetTargetMultiplier(i, h);
        if target < multipliers[i] {
          SetMultiplier(i, target);
        }
        if h.Severe? && configs[i].dropOnSevere && !dropped[i] {
          SetDropped(i, true);
        }
      }
    }

    /** One round of the loops that raise the streams. */
    method ImproveStream(i: nat, h: Health)
      requires Valid() && i < 256
      modifies this`calls, multipliers, dropped
      ensures At(i) == old(At(i)).Better(h, step) && Same(i)
      ensures calls == old(calls) + CallsFor(i, old(At(i)), old(At(i)).Better(h, step))
    {
      CallsJoin(calls, i, At(i), At(i).Better(h, step));
      if manual[i] < 0.0 {
        var target := GetTargetMultiplier(i, h);
        var mult := multipliers[i] + step;
        if target < mult { mult := target; }
        mult := Clamp(mult, configs[i].min, configs[i].max);
        SetMultiplier(i, mult);
        if dropped[i] && !h.Severe? {
          SetDropped(i, false);
        }
      }
    }

    method WorsenAll(h: Health)
      requires Valid()
      modifies this`calls, multipliers, dropped
      ensures old(Now()).Valid() && Now() == old(AllTo(Now(), health, AllWorse(Now().streams, h)))
    {
      ValidNow();
      ghost var was := Now();
      ghost var after := AllWorse(was.streams, h);
      var i := 0;
      while i < 256
        invariant 0 <= i <= 256 && health == old(health)
        invariant forall j | 0 <= j < i :: At(j) == after[j]
        invariant forall j | i <= j < 256 :: At(j) == was.streams[j]
        invariant calls == was.calls + CallsUpto(was.streams, after, i)
      {
        WorsenStream(i, h);
        i := i + 1;
      }
      assert Now().streams == after;
    }

    method ImproveAll(h: Health)
      requires Valid()
      modifies this`calls, multipliers, dropped
      ensures old(Now()).Valid() && Now() == old(AllTo(Now(), health, AllBetter(Now().streams, h, step)))
    {
      ValidNow();
      ghost var was := Now();
      ghost var after := AllBetter(was.streams, h, step);
      var i := 0;
      while i < 256
        invariant 0 <= i <= 256 && health == old(health)
        invariant forall j | 0 <= j < i :: At(j) == after[j]
        invariant forall j | i <= j < 256 :: At(j) == was.streams[j]
        invariant calls == was.calls + CallsUpto(was.streams, after, i)
      {
        ImproveStream(i, h);
        i := i + 1;
      }
      assert Now().streams == after;
    }

    method HandleHealthChange(h: Health)
      requires Valid()
      modifies this`calls, this`health, multipliers, dropped
      ensures old(Now()).Valid() && Now() == old(HealthChange(Now(), h, step))
    {
      ValidNow();
      var before := health;
      assert h.Level() == before.Level() ==> h == before;
      health := h;
      assert Now().streams == old(Now()).streams;
      if h.Level() > before.Level() {
        WorsenAll(h);
      } else if h.Level() < before.Level() {
        ImproveAll(h);
      }
    }

    method TryBandwidthIncrease()
      requires Valid()
      modifies this`calls, this`health, multipliers, dropped
      ensures old(Now()).Valid() && Now() == old(Probe(Now(), step))
    {
      ValidNow();
      if health.Healthy? {
        return;
      }
      health := health.Better();
      assert Now().streams == old(Now()).streams;
      ImproveAll(health);
    }

    method UpdateStreamMultiplier(i: nat)
      requires Valid() && i < 256
      modifies this`calls, multipliers
      ensures old(Now()).Valid() && Now() == old(Reset(Now(), i, At(i)))
    {
      ValidNow();
      if manual[i] >= 0.0 {
        SetMultiplier(i, Clamp(manual[i], configs[i].min, configs[i].max));
        return;
      }
      var target := GetTargetMultiplier(i, health);
      SetMultiplier(i, target);
    }

    method SetStreamConfig(i: nat, config: StreamConfig)
      requires Valid() && i < 256 && config.Valid()
      modifies this`calls, multipliers, configs
      ensures Valid() && old(Now()).Valid() && Now() == old(Apply(Now(), Configure(i, config), step))
    {
      ValidNow();
      configs[i] := config;
      UpdateStreamMultiplier(i);
    }

    method SetManualMultiplier(i: nat, mult: real)
      requires Valid() && i < 256
      modifies this`calls, multipliers, manual
      ensures old(Now()).Valid() && Now() == old(Apply(Now(), SetManual(i, mult), step))
    {
      ValidNow();
      manual[i] := Clamp(mult, 0.0, 1.0);
      UpdateStreamMultiplier(i);
    }

    method ClearManualMultiplier(i: nat)
      requires Valid() && i < 256
      modifies this`calls, multipliers, manual
      ensures old(Now()).Valid() && Now() == old(Apply(Now(), ClearManual(i), step))
    {
      ValidNow();
      manual[i] := -1.0;
      UpdateStreamMultiplier(i);
    }
  }

  // ----- what every sequence of operations keeps -----

  /** Every stream is within its own bounds and, unless overridden, no higher than health allows. */
  ghost predicate Inv(m: Manager) { AllValid(m.streams) && forall i | 0 <= i < 256 :: m.streams[i].Ok(m.health) }

  lemma StreamKeepsOk(s: Stream, g: Health, h: Health, step: real)
    requires s.Ok(g)
    ensures h.Level() > g.Level() ==> s.Worse(h).Ok(h)
    ensures h.Level() < g.Level() ==> s.Better(h, step).Ok(h)
  {
  }

  lemma ApplyKeepsInv(m: Manager, op: Op, step: real)
    requires Inv(m) && op.Allowed()
    ensures Inv(Apply(m, op, step))
  {
    var n := Apply(m, op, step);
    assert m.health.Better().Level() < m.health.Level() || m.health.Healthy?;
    assert op.Evaluate? && op.health.Level() == m.health.Level() ==> op.health == m.health;
    forall i | 0 <= i < 256 ensures n.streams[i].Ok(n.health) {
      assert m.streams[i].Ok(m.health);
      StreamKeepsOk(m.streams[i], m.health, n.health, step);
    }
  }

  lemma ApplyKeepsValid(m: Manager, op: Op, step: real)
    requires m.Valid() && op.Allowed()
    ensures Apply(m, op, step).Valid()
  {
  }

  function Run(m: Manager, ops: seq<Op>, step: real): (n: Manager)
    requires m.Valid() && forall op <- ops :: op.Allowed()
    ensures n.Valid()
    decreases |ops|
  {
    if ops == [] then m
    else
      ApplyKeepsValid(m, ops[0], step);
      Run(Apply(m, ops[0], step), ops[1..], step)
  }

  /** In every reachable state, whatever the increment: each multiplier lies in its stream's range, an
      overridden one is the clamped override, and any other is at most the target for the health. */
  lemma {:induction false} RunKeepsInv(m: Manager, ops: seq<Op>, step: real)
    requires Inv(m) && forall op <- ops :: op.Allowed()
    ensures Inv(Run(m, ops, step))
    decreases |ops|
  {
    hide Apply;
    if ops != [] {
      ApplyKeepsInv(m, ops[0], step);
      RunKeepsInv(Apply(m, ops[0], step), ops[1..], step);
    }
  }

  /** A new manager satisfies this and the two properties below. */
  lemma InitialInv()
    ensures Inv(Initial()) && Told(Initial()) && AllNews(Initial().calls)
    ensures forall i | 0 <= i < 256 :: DropIsSevere(Initial(), i) && Initial().streams[i].manual < 0.0
  {
  }

  // ----- what each operation does -----

  lemma OnlyTarget(s: Stream, h: Health, x: real)
    requires s.Valid()
    ensures Nearest(x, Nominal(h, s.config.min), s.config.min, s.config.max) <==> x == s.Target(h)
  {
    s.TargetIsNearest(h);
  }

  /** A change of health, with `x` the point of the stream's range nearest to the new nominal value. An override keeps
      the stream as it is. A worsening leaves the lower of the old multiplier and that point, and drops the stream
      if it is severe and the stream is set up for that. An improvement adds one increment up to that point, and
      takes a dropped stream up again. */
  lemma HealthStep(m: Manager, op: Op, step: real, i: nat, x: real)
    requires Inv(m) && op.Allowed() && (op.Evaluate? || op.ProbeStep?) && i < 256
    requires var s := m.streams[i];
      Nearest(x, Nominal(Apply(m, op, step).health, s.config.min), s.config.min, s.config.max)
    ensures |Apply(m, op, step).streams| == 256
    ensures Apply(m, op, step).health == if op.Evaluate? then op.health else m.health.Better()
    ensures var s, t, h := m.streams[i], Apply(m, op, step).streams[i], Apply(m, op, step).health;
      if s.manual >= 0.0 || h == m.health then t == s
      else
        && t.config == s.config && t.manual == s.manual
        && if h.Level() > m.health.Level() then
             && t.mult == (if x < s.mult then x else s.mult)
             && (t.dropped <==> s.dropped || (h.Severe? && s.config.dropOnSevere))
           else
             && (step >= 0.0 ==> t.mult == if s.mult + step < x then s.mult + step else x)
             && !t.dropped
  {
    hide CallsUpto, CallsFor, Nearest, Nominal;
    var h := Apply(m, op, step).health;
    OnlyTarget(m.streams[i], h, x);
    assert m.streams[i].Ok(m.health);
    m.streams[i].TargetIsNearest(m.health);
  }

  /** A change of one stream's settings: its multiplier becomes the point of its range nearest to the override, or
      without one to the nominal value of the health; nothing else changes. */
  lemma SettingStep(m: Manager, op: Op, step: real, i: nat)
    requires m.Valid() && op.Allowed() && (op.Configure? || op.SetManual? || op.ClearManual?) && i < 256
    ensures |Apply(m, op, step).streams| == 256 && Apply(m, op, step).health == m.health
    ensures var s, t := m.streams[i], Apply(m, op, step).streams[i];
      if i != op.stream then t == s
      else
        && t.config == (if op.Configure? then op.config else s.config) && t.dropped == s.dropped
        && (op.SetManual? ==> Nearest(t.manual, op.mult, 0.0, 1.0))
        && (op.ClearManual? ==> t.manual < 0.0) && (op.Configure? ==> t.manual == s.manual)
        && Nearest(t.mult, if t.manual >= 0.0 then t.manual else Nominal(m.health, t.config.min), t.config.min,
                   t.config.max)
  {
    hide CallsUpto, CallsFor;
    var t := Apply(m, op, step).streams[op.stream];
    var aim := if t.manual >= 0.0 then t.manual else Nominal(m.health, t.config.min);
    ClampIsNearest(aim, t.config.min, t.config.max, t.mult);
    if op.SetManual? { ClampIsNearest(op.mult, 0.0, 1.0, t.manual); }
  }

  /** Every stream without an override is where the health aims. */
  ghost predicate OnTarget(m: Manager) {
    && Inv(m)
    && forall i | 0 <= i < 256 && m.streams[i].manual < 0.0 ::
         var s := m.streams[i]; Nearest(s.mult, Nominal(m.health, s.config.min), s.config.min, s.config.max)
  }

  /** Health does not improve on the way; settings may change at will. */
  predicate Declines(h: Health, ops: seq<Op>)
    decreases |ops|
  {
    ops == [] ||
    match ops[0]
    case Evaluate(g) => g.Level() >= h.Level() && Declines(g, ops[1..])
    case ProbeStep => h.Healthy? && Declines(h, ops[1..])
    case _ => Declines(h, ops[1..])
  }

  /** The worst health that was reached. */
  function Worst(h: Health, ops: seq<Op>): Health
    decreases |ops|
  {
    if ops == [] then h
    else Worst(if ops[0].Evaluate? && ops[0].health.Level() > h.Level() then ops[0].health else h, ops[1..])
  }

  lemma ApplyOnTarget(m: Manager, op: Op, step: real)
    requires OnTarget(m) && op.Allowed() && Declines(m.health, [op])
    ensures OnTarget(Apply(m, op, step)) && Apply(m, op, step).health == Worst(m.health, [op])
  {
    hide CallsUpto, CallsFor, Nearest, Nominal;
    ApplyKeepsInv(m, op, step);
    var n := Apply(m, op, step);
    assert op.Evaluate? && op.health.Level() == m.health.Level() ==> op.health == m.health;
    forall i | 0 <= i < 256 && n.streams[i].manual < 0.0
      ensures var t := n.streams[i]; Nearest(t.mult, Nominal(n.health, t.config.min), t.config.min, t.config.max)
    {
      if op.Evaluate? || op.ProbeStep? {
        var s := m.streams[i];
        OnlyTarget(s, n.health, s.Target(n.health));
        OnlyTarget(s, m.health, s.mult);
        HealthStep(m, op, step, i, s.Target(n.health));
        s.TargetIsNearest(n.health);
      } else {
        SettingStep(m, op, step, i);
      }
    }
  }

  /** While health does not improve, whatever settings change in between, every stream without an override stays at
      the point of its range nearest to the nominal value of the worst health reached. */
  lemma {:induction false} WorseningRuns(m: Manager, ops: seq<Op>, step: real)
    requires OnTarget(m) && Declines(m.health, ops) && forall op <- ops :: op.Allowed()
    ensures OnTarget(Run(m, ops, step)) && Run(m, ops, step).health == Worst(m.health, ops)
    decreases |ops|
  {
    hide Apply, OnTarget, Op.Allowed;
    if ops != [] {
      FirstDeclines(m.health, ops);
      ApplyOnTarget(m, ops[0], step);
      TargetValid(m);
      ApplyKeepsValid(m, ops[0], step);
      WorseningRuns(Apply(m, ops[0], step), ops[1..], step);
    }
  }

  lemma TargetValid(m: Manager)
    requires OnTarget(m)
    ensures m.Valid()
  {
  }

  lemma FirstDeclines(h: Health, ops: seq<Op>)
    requires Declines(h, ops) && ops != []
    ensures Declines(h, [ops[0]]) && Declines(Worst(h, [ops[0]]), ops[1..])
    ensures Worst(h, ops) == Worst(Worst(h, [ops[0]]), ops[1..])
  {
    assert [ops[0]][1..] == [];
    assert ops[0].Evaluate? && ops[0].health.Level() == h.Level() ==> ops[0].health == h;
  }

  // ----- what the callbacks tell -----

  /** What a user knows of stream `i` from the calls alone. */
  function Heard(calls: seq<Call>, i: nat): (real, bool) {
    if calls == [] then (1.0, false)
    else
      var (mult, drop) := Heard(calls[..|calls| - 1], i);
      match calls[|calls| - 1]
      case Changed(j, x) => if j == i then (x, drop) else (mult, drop)
      case Dropped(j, d) => if j == i then (mult, d) else (mult, drop)
  }

  lemma HeardOne(calls: seq<Call>, c: Call, i: nat)
    ensures Heard(calls + [c], i)
      == match c case Changed(j, x) => (if j == i then (x, Heard(calls, i).1) else Heard(calls, i))
                 case Dropped(j, d) => (if j == i then (Heard(calls, i).0, d) else Heard(calls, i))
  {
    assert (calls + [c])[..|calls|] == calls;
  }

  lemma HeardFor(calls: seq<Call>, j: nat, before: Stream, after: Stream, i: nat)
    requires i == j ==> Heard(calls, i) == (before.mult, before.dropped)
    ensures Heard(calls + CallsFor(j, before, after), i)
         == if i == j then (after.mult, after.dropped) else Heard(calls, i)
  {
    CallsJoin(calls, j, before, after);
    var mid := calls + (if before.mult != after.mult then [Changed(j, after.mult)] else []);
    HeardOne(calls, Changed(j, after.mult), i);
    HeardOne(mid, Dropped(j, after.dropped), i);
    hide Heard;
    assert before.mult == after.mult ==> mid == calls;
    assert mid + [] == mid;
  }

  lemma Regroup(a: seq<Call>, b: seq<Call>, c: seq<Call>)
    ensures (a + b) + c == a + (b + c)
  {
  }

  lemma {:induction false} HeardUpto(calls: seq<Call>, before: seq<Stream>, after: seq<Stream>, n: nat, i: nat)
    requires |before| == |after| == 256 && n <= 256 && i < 256
    requires Heard(calls, i) == (before[i].mult, before[i].dropped)
    ensures Heard(calls + CallsUpto(before, after, n), i)
      == if i < n then (after[i].mult, after[i].dropped) else (before[i].mult, before[i].dropped)
  {
    hide Heard, CallsFor;
    if n == 0 {
      assert calls + [] == calls;
    } else {
      var some, one := CallsUpto(before, after, n - 1), CallsFor(n - 1, before[n - 1], after[n - 1]);
      HeardUpto(calls, before, after, n - 1, i);
      HeardFor(calls + some, n - 1, before[n - 1], after[n - 1], i);
      Regroup(calls, some, one);
    }
  }

  /** The user has been told the current multiplier and drop state of every stream. */
  ghost predicate Told(m: Manager) {
    m.Valid() && forall i | 0 <= i < 256 :: Heard(m.calls, i) == (m.streams[i].mult, m.streams[i].dropped)
  }

  lemma AllToTold(m: Manager, h: Health, after: seq<Stream>)
    requires Told(m) && AllValid(after)
    ensures Told(AllTo(m, h, after))
  {
    forall i | 0 <= i < 256 ensures Heard(AllTo(m, h, after).calls, i) == (after[i].mult, after[i].dropped) {
      HeardUpto(m.calls, m.streams, after, 256, i);
    }
  }

  lemma ApplyKeepsTold(m: Manager, op: Op, step: real)
    requires Told(m) && op.Allowed()
    ensures Told(Apply(m, op, step))
  {
    var n := Apply(m, op, step);
    ApplyKeepsValid(m, op, step);
    hide Heard, CallsUpto, CallsFor;
    if op.Evaluate? || op.ProbeStep? {
      if n != m { AllToTold(m, n.health, n.streams); }
    } else {
      forall i | 0 <= i < 256 ensures Heard(n.calls, i) == (n.streams[i].mult, n.streams[i].dropped) {
        HeardFor(m.calls, op.stream, m.streams[op.stream], n.streams[op.stream], i);
      }
    }
  }

  /** No change goes unreported: over every run the calls alone give each stream's state. */
  lemma {:induction false} RunKeepsTold(m: Manager, ops: seq<Op>, step: real)
    requires Told(m) && forall op <- ops :: op.Allowed()
    ensures Told(Run(m, ops, step))
    decreases |ops|
  {
    hide Apply;
    if ops != [] {
      ApplyKeepsTold(m, ops[0], step);
      RunKeepsTold(Apply(m, ops[0], step), ops[1..], step);
    }
  }

  /** Each call tells the user something new. */
  ghost predicate AllNews(calls: seq<Call>) {
    forall k | 0 <= k < |calls| :: Heard(calls[..k + 1], calls[k].stream) != Heard(calls[..k], calls[k].stream)
  }

  lemma NewsOne(calls: seq<Call>, c: Call)
    requires AllNews(calls) && Heard(calls + [c], c.stream) != Heard(calls, c.stream)
    ensures AllNews(calls + [c])
  {
    hide Heard;
    var more := calls + [c];
    forall k | 0 <= k < |more| ensures Heard(more[..k + 1], more[k].stream) != Heard(more[..k], more[k].stream) {
      assert more[..|calls|] == calls && more[..|more|] == more;
      if k < |calls| { assert more[..k] == calls[..k] && more[..k + 1] == calls[..k + 1]; }
    }
  }

  lemma NewsFor(calls: seq<Call>, i: nat, before: Stream, after: Stream)
    requires AllNews(calls) && Heard(calls, i) == (before.mult, before.dropped)
    ensures AllNews(calls + CallsFor(i, before, after))
  {
    hide AllNews;
    CallsJoin(calls, i, before, after);
    var c, d := Changed(i, after.mult), Dropped(i, after.dropped);
    HeardOne(calls, c, i);
    var mid := calls + (if before.mult != after.mult then [c] else []);
    HeardOne(mid, d, i);
    hide Heard;
    assert calls + [] == calls && mid + [] == mid;
    if before.mult != after.mult { NewsOne(calls, c); }
    if before.dropped != after.dropped { NewsOne(mid, d); }
  }

  lemma {:induction false} NewsUpto(calls: seq<Call>, before: seq<Stream>, after: seq<Stream>, n: nat)
    requires |before| == |after| == 256 && n <= 256 && AllNews(calls)
    requires forall i | 0 <= i < 256 :: Heard(calls, i) == (before[i].mult, before[i].dropped)
    ensures AllNews(calls + CallsUpto(before, after, n))
  {
    hide Heard, CallsFor, AllNews;
    if n == 0 {
      assert calls + [] == calls;
    } else {
      NewsUpto(calls, before, after, n - 1);
      HeardUpto(calls, before, after, n - 1, n - 1);
      var some, one := CallsUpto(before, after, n - 1), CallsFor(n - 1, before[n - 1], after[n - 1]);
      NewsFor(calls + some, n - 1, before[n - 1], after[n - 1]);
      Regroup(calls, some, one);
    }
  }

  lemma ApplyKeepsNews(m: Manager, op: Op, step: real)
    requires Told(m) && AllNews(m.calls) && op.Allowed()
    ensures AllNews(Apply(m, op, step).calls)
  {
    var n := Apply(m, op, step);
    ApplyKeepsValid(m, op, step);
    hide Heard, CallsUpto, CallsFor, AllNews;
    if op.Evaluate? || op.ProbeStep? {
      if n != m { NewsUpto(m.calls, m.streams, n.streams, 256); }
    } else {
      NewsFor(m.calls, op.stream, m.streams[op.stream], n.streams[op.stream]);
    }
  }

  /** And no call is made for nothing. */
  lemma {:induction false} RunKeepsNews(m: Manager, ops: seq<Op>, step: real)
    requires Told(m) && AllNews(m.calls) && forall op <- ops :: op.Allowed()
    ensures AllNews(Run(m, ops, step).calls)
    decreases |ops|
  {
    hide Apply, AllNews, Told;
    if ops != [] {
      ToldValid(m);
      ApplyKeepsValid(m, ops[0], step);
      ApplyKeepsTold(m, ops[0], step);
      ApplyKeepsNews(m, ops[0], step);
      RunKeepsNews(Apply(m, ops[0], step), ops[1..], step);
    }
  }

  lemma ToldValid(m: Manager)
    requires Told(m)
    ensures m.Valid()
  {
  }

  // ----- a new manager -----

  lemma InitialOnTarget()
    ensures OnTarget(Initial())
  {
    InitialInv();
    hide Nearest, Nominal;
    forall i | 0 <= i < 256
      ensures var s := Initial().streams[i]; Nearest(s.mult, Nominal(Healthy, s.config.min), s.config.min, s.config.max)
    {
      OnlyTarget(Initial().streams[i], Healthy, 1.0);
      DefaultTargets(Initial().streams[i]);
    }
  }

  lemma DefaultTargets(s: Stream)
    requires s.config == DEFAULT
    ensures forall h: Health :: s.Target(h) == [1.0, 0.7, 0.5, 0.0][h.Level()]
  {
  }

  lemma {:induction false} EvaluatesKeep(m: Manager, ops: seq<Op>, step: real, i: nat)
    requires m.Valid() && i < 256 && (forall op <- ops :: op.Evaluate? && op.Allowed())
    requires m.streams[i].config == DEFAULT && m.streams[i].manual < 0.0 && !m.streams[i].dropped
    ensures var t := Run(m, ops, step).streams[i]; t.config == DEFAULT && t.manual < 0.0 && !t.dropped
    decreases |ops|
  {
    if ops != [] {
      ApplyKeepsValid(m, ops[0], step);
      OneEvaluate(m, ops[0], step, i);
      hide Apply;
      EvaluatesKeep(Apply(m, ops[0], step), ops[1..], step, i);
    }
  }

  lemma OneEvaluate(m: Manager, op: Op, step: real, i: nat)
    requires m.Valid() && i < 256 && op.Evaluate? && op.Allowed()
    requires m.streams[i].config == DEFAULT && m.streams[i].manual < 0.0 && !m.streams[i].dropped
    ensures Apply(m, op, step).Valid()
    ensures var t := Apply(m, op, step).streams[i]; t.config == DEFAULT && t.manual < 0.0 && !t.dropped
  {
    hide CallsUpto, CallsFor;
    ApplyKeepsValid(m, op, step);
  }

  /** A new manager whose health is only evaluated, and never better than before: all 256 streams are at 1.0, 0.7, 0.5
      or 0.0 by the worst health reached, and the user has been told so. */
  lemma WorseningFromNew(ops: seq<Op>, step: real, i: nat)
    requires Declines(Healthy, ops) && (forall op <- ops :: op.Evaluate?) && i < 256
    ensures forall op <- ops :: op.Allowed()
    ensures var n, h := Run(Initial(), ops, step), Worst(Healthy, ops);
      && n.health == h && n.streams[i].mult == [1.0, 0.7, 0.5, 0.0][h.Level()]
      && Heard(n.calls, i) == (n.streams[i].mult, false)
  {
    var m := Initial();
    InitialOnTarget();
    WorseningRuns(m, ops, step);
    InitialInv();
    RunKeepsTold(m, ops, step);
    EvaluatesKeep(m, ops, step, i);
    var n := Run(m, ops, step);
    hide Run, Heard, Nearest, Initial, Told, Inv;
    OnlyTarget(n.streams[i], n.health, n.streams[i].mult);
    DefaultTargets(n.streams[i]);
  }

  // ----- dropped streams -----

  /** The stream is dropped only while congestion is severe. */
  predicate DropIsSevere(m: Manager, i: nat)
    requires m.Valid() && i < 256
  {
    m.streams[i].dropped ==> m.health.Severe?
  }

  /** Health would leave SEVERE while a dropped stream is overridden, so nothing takes it up again. */
  predicate Strands(m: Manager, op: Op, i: nat)
    requires m.Valid() && i < 256
  {
    m.streams[i].dropped && m.streams[i].manual >= 0.0 && (op.ProbeStep? || (op.Evaluate? && !op.health.Severe?))
  }

  /** The operation takes up a dropped stream again: health becomes severe, or improves with no override. */
  predicate Recovers(m: Manager, op: Op, i: nat)
    requires m.Valid() && i < 256
  {
    || (op.Evaluate? && op.health.Severe?)
    || (m.streams[i].manual < 0.0
        && ((op.Evaluate? && op.health.Level() < m.health.Level()) || (op.ProbeStep? && !m.health.Healthy?)))
  }

  /** From a state in which "dropped" means "severe", an operation leaves that exactly when it strands the
      stream; from one in which it does not, an operation restores it exactly when it recovers the stream. */
  lemma DropStep(m: Manager, op: Op, step: real, i: nat)
    requires m.Valid() && op.Allowed() && i < 256
    ensures Apply(m, op, step).Valid()
    ensures DropIsSevere(Apply(m, op, step), i)
      == if DropIsSevere(m, i) then !Strands(m, op, i) else Recovers(m, op, i)
  {
    ApplyKeepsValid(m, op, step);
    hide CallsUpto, CallsFor;
  }

  /** The last operation that strands the stream, if any, is followed by one that recovers it. */
  predicate Reclaimed(m: Manager, ops: seq<Op>, step: real, i: nat)
    requires m.Valid() && i < 256 && forall op <- ops :: op.Allowed()
    decreases |ops|
  {
    var n := |ops| - 1;
    ops == [] ||
    (if Reclaimed(m, ops[..n], step, i) then !Strands(Run(m, ops[..n], step), ops[n], i)
     else Recovers(Run(m, ops[..n], step), ops[n], i))
  }

  lemma {:induction false} RunSplit(m: Manager, ops: seq<Op>, step: real)
    requires m.Valid() && ops != [] && forall op <- ops :: op.Allowed()
    ensures Run(m, ops, step) == Apply(Run(m, ops[..|ops| - 1], step), ops[|ops| - 1], step)
    decreases |ops|
  {
    hide Apply;
    ApplyKeepsValid(m, ops[0], step);
    if |ops| == 1 {
      assert ops[1..] == [] && ops[..0] == [];
    } else {
      RunSplit(Apply(m, ops[0], step), ops[1..], step);
      assert ops[..|ops| - 1][0] == ops[0] && ops[..|ops| - 1][1..] == ops[1..][..|ops| - 2];
    }
  }

  /** Over every run from such a state: at the end the stream is dropped only under severe congestion if
      and only if it was recovered after it was last stranded. */
  lemma {:induction false} DroppedExactly(m: Manager, ops: seq<Op>, step: real, i: nat)
    requires m.Valid() && i < 256 && DropIsSevere(m, i) && forall op <- ops :: op.Allowed()
    ensures DropIsSevere(Run(m, ops, step), i) <==> Reclaimed(m, ops, step, i)
    decreases |ops|
  {
    hide Apply, DropIsSevere, Strands, Recovers;
    if ops != [] {
      var n := |ops| - 1;
      DroppedExactly(m, ops[..n], step, i);
      RunSplit(m, ops, step);
      DropStep(Run(m, ops[..n], step), ops[n], step, i);
    }
  }

  /** The override is set exactly if the last operation that concerns it set it. */
  predicate Overridden(ops: seq<Op>, i: nat) {
    var n := |ops| - 1;
    ops != [] &&
    match ops[n]
    case SetManual(j, _) => j == i || Overridden(ops[..n], i)
    case ClearManual(j) => j != i && Overridden(ops[..n], i)
    case _ => Overridden(ops[..n], i)
  }

  lemma {:induction false} OverriddenIs(m: Manager, ops: seq<Op>, step: real, i: nat)
    requires m.Valid() && i < 256 && m.streams[i].manual < 0.0 && forall op <- ops :: op.Allowed()
    ensures Run(m, ops, step).streams[i].manual >= 0.0 <==> Overridden(ops, i)
    decreases |ops|
  {
    hide CallsUpto, CallsFor;
    if ops != [] {
      OverriddenIs(m, ops[..|ops| - 1], step, i);
      RunSplit(m, ops, step);
      ManualAfter(Run(m, ops[..|ops| - 1], step), ops[|ops| - 1], step, i);
    }
  }

  lemma ManualAfter(m: Manager, op: Op, step: real, i: nat)
    requires m.Valid() && op.Allowed() && i < 256
    ensures Apply(m, op, step).streams[i].manual
      == if op.SetManual? && op.stream == i then Clamp(op.mult, 0.0, 1.0)
         else if op.ClearManual? && op.stream == i then -1.0 else m.streams[i].manual
  {
    hide CallsUpto, CallsFor;
  }

  /** A stream that is never overridden is dropped only while congestion is severe. */
  lemma {:induction false} NeverManual(m: Manager, ops: seq<Op>, step: real, i: nat)
    requires m.Valid() && i < 256 && DropIsSevere(m, i) && m.streams[i].manual < 0.0
    requires forall op <- ops :: op.Allowed() && !(op.SetManual? && op.stream == i)
    ensures DropIsSevere(Run(m, ops, step), i)
    decreases |ops|
  {
    hide Apply, DropIsSevere;
    if ops != [] {
      DropStep(m, ops[0], step, i);
      ManualAfter(m, ops[0], step, i);
      NeverManual(Apply(m, ops[0], step), ops[1..], step, i);
    }
  }

  /** An override in between can leave it dropped in good health, even after the override is gone. */
  lemma DroppedThoughHealthy(step: real)
    ensures var m0 := Initial();
      var m1 := Apply(m0, Configure(0, StreamConfig(0.0, 1.0, true, 128)), step);
      var m2 := Apply(m1, Evaluate(Severe), step);
      var m3 := Apply(m2, SetManual(0, 1.0), step);
      var m4 := Apply(m3, Evaluate(Healthy), step);
      var m5 := Apply(m4, ClearManual(0), step);
      m5.health.Healthy? && m5.streams[0].manual < 0.0 && m5.streams[0].dropped
  {
    hide CallsUpto, CallsFor;
  }

  // ----- recovery -----

  /** What one probing step makes of an unoverridden stream below its new target. */
  lemma ProbeRaises(m: Manager, step: real, i: nat)
    requires Inv(m) && !m.health.Healthy? && i < 256 && m.streams[i].manual < 0.0
    ensures Inv(Probe(m, step)) && Probe(m, step).health == m.health.Better()
    ensures var s, t := m.streams[i], Probe(m, step).streams[i];
      && t.config == s.config && t.manual == s.manual
      && (t.mult == s.Target(m.health.Better()) <==>
            s.mult + step >= s.Target(m.health.Better()) || s.Target(m.health.Better()) == s.config.min)
      && (step >= 0.0 ==>
            t.mult == if s.mult + step < s.Target(m.health.Better()) then s.mult + step
                      else s.Target(m.health.Better()))
      && (step < 0.0 ==> t.mult <= s.mult)
  {
    ApplyKeepsInv(m, ProbeStep, step);
    assert m.streams[i].Ok(m.health) && Probe(m, step).streams[i].Ok(m.health.Better());
    m.streams[i].TargetIsNearest(m.health);
    hide CallsUpto;
  }

  /** Probing back to HEALTHY restores the full multiplier of an unoverridden stream exactly when one
      increment is enough, or its range holds nothing below; and then it changes nothing more. */
  lemma FullRecovery(m: Manager, step: real, i: nat)
    requires Inv(m) && m.health.Degraded? && i < 256 && m.streams[i].manual < 0.0
    ensures var n, full := Probe(m, step), m.streams[i].Target(Healthy);
      && n.health.Healthy? && n.Valid() && Probe(n, step) == n
      && (n.streams[i].mult == full <==> m.streams[i].mult + step >= full || full == m.streams[i].config.min)
  {
    ProbeRaises(m, step, i);
  }

  /** The climb from SEVERE: three steps, whose increments must bridge the distance from the lower bound and
      from each target on the way. */
  lemma FullClimb(m: Manager, step: real, i: nat)
    requires Inv(m) && m.health.Severe? && i < 256 && m.streams[i].manual < 0.0
    ensures var n1 := Probe(m, step);
      Inv(n1) && n1.health.Congested? && var n2 := Probe(n1, step);
      Inv(n2) && n2.health.Degraded? && var n3 := Probe(n2, step);
      && Inv(n3) && n3.health.Healthy?
      && var s := m.streams[i];
         var full := s.Target(Healthy);
         (n3.streams[i].mult == full <==>
           || full == s.config.min
           || (s.config.min + 3.0 * step >= full && s.Target(Congested) + 2.0 * step >= full
               && s.Target(Degraded) + step >= full))
  {
    assert m.streams[i].Ok(m.health);
    m.streams[i].TargetIsNearest(Severe);
    m.streams[i].TargetIsNearest(Congested);
    m.streams[i].TargetIsNearest(Degraded);
    ProbeRaises(m, step, i);
    var n1 := Probe(m, step);
    ProbeRaises(n1, step, i);
    var n2 := Probe(n1, step);
    ProbeRaises(n2, step, i);
    hide Probe, Inv;
    hide Stream.Target;
  }

  /** In the default range an increment below 0.3, such as the default 0.1, never suffices. */
  lemma RecoveryStops(m: Manager, step: real, i: nat)
    requires Inv(m) && m.health.Degraded? && i < 256 && step < 0.3
    requires m.streams[i].manual < 0.0 && m.streams[i].config.min == 0.0 && m.streams[i].config.max == 1.0
    ensures var n := Probe(m, step);
      n.health.Healthy? && n.streams[i].mult < 1.0 && n.Valid() && Probe(n, step) == n
  {
    FullRecovery(m, step, i);
    ProbeRaises(m, step, i);
    assert m.streams[i].Ok(m.health);
    hide Probe;
  }
}
