/** Agent registration and heartbeat monitoring. Times are in seconds. */
module Coordinator {
  import opened Collections

  const HEARTBEAT_INTERVAL: real := 15.0
  const HEARTBEAT_TIMEOUT: real := 45.0

  datatype Status = REGISTERED | STARTING | ACTIVE | IDLE | DEGRADED | STOPPING | STOPPED

  datatype Agent = Agent(status: Status, lastHeartbeat: real)

  type Agents = map<string, Agent>

  // -------------------------------------------------------------- operations

  function Registered(now: real): Agent {
    Agent(REGISTERED, now)
  }

  function Beat(a: Agent, now: real): Agent {
    Agent(if a.status in {REGISTERED, DEGRADED} then ACTIVE else a.status, now)
  }

  function Checked(a: Agent, now: real): Agent {
    if now - a.lastHeartbeat > HEARTBEAT_TIMEOUT && a.status != DEGRADED then a.(status := DEGRADED) else a
  }

  function Register(agents: Agents, name: string, now: real): Agents {
    agents[name := Registered(now)]
  }

  function Deregister(agents: Agents, name: string): Agents {
    agents - {name}
  }

  function Heartbeat(agents: Agents, name: string, now: real): Agents {
    if name in agents then agents[name := Beat(agents[name], now)] else agents
  }

  /** One pass of the monitor over all agents. */
  function Tick(agents: Agents, now: real): Agents {
    map n | n in agents :: Checked(agents[n], now)
  }

  // ----------------------------------------------------------------- the class

  class AgentInfo {
    const name: string
    var status: Status
    var lastHeartbeat: real

    constructor (name: string, now: real)
      ensures this.name == name && View() == Registered(now)
    {
      this.name, status, lastHeartbeat := name, REGISTERED, now;
    }

    function View(): Agent
      reads this
    {
      Agent(status, lastHeartbeat)
    }
  }

  class AgentCoordinator {
    var agents: Dict<string, AgentInfo>

    ghost predicate Valid()
      reads this, agents.data.Values
    {
      && agents.Valid()
      && (forall n | n in agents.data :: agents.data[n].name == n)
    }

    ghost function View(): Agents
      reads this, agents.data.Values
    {
      map n | n in agents.data :: agents.data[n].View()
    }

    constructor ()
      ensures Valid() && View() == map[]
    {
      agents := EmptyDict();
    }

    twostate lemma ViewAfterChange(new a: AgentInfo)
      requires old(Valid()) && agents.data == old(agents.data)[a.name := a]
      requires forall n | n in old(agents.data) && n != a.name :: unchanged(old(agents.data)[n])
      ensures View() == old(View())[a.name := a.View()]
    {
    }

    method RegisterAgent(name: string, now: real) returns (info: AgentInfo)
      requires Valid()
      modifies this
      ensures Valid() && View() == Register(old(View()), name, now)
      ensures name in agents.data && info == agents.data[name]
    {
      info := new AgentInfo(name, now);
      agents := Put(agents, name, info);
      ViewAfterChange(info);
    }

    method DeregisterAgent(name: string) returns (found: bool)
      requires Valid()
      modifies this, agents.data.Values
      ensures Valid() && View() == Deregister(old(View()), name)
      ensures found == (name in old(agents.data))
    {
      if name !in agents.data {
        return false;
      }
      agents.data[name].status := STOPPING;
      RemoveValid(agents, name);
      agents := Remove(agents, name);
      return true;
    }

    method ReceiveHeartbeat(name: string, now: real)
      requires Valid()
      modifies agents.data.Values
      ensures Valid() && View() == Heartbeat(old(View()), name, now)
    {
      if name !in agents.data {
        return;
      }
      var info := agents.data[name];
      info.lastHeartbeat := now;
      if info.status in {REGISTERED, DEGRADED} {
        info.status := ACTIVE;
      }
      ViewAfterChange(info);
    }

    method CheckAgent(info: AgentInfo, now: real)
      modifies info
      ensures info.View() == Checked(old(info.View()), now)
    {
      var elapsed := now - info.lastHeartbeat;
      if elapsed > HEARTBEAT_TIMEOUT && info.status != DEGRADED {
        info.status := DEGRADED;
      }
    }

    /** The body of the monitor loop after its sleep. */
    method MonitorTick(now: real)
      requires Valid()
      modifies agents.data.Values
      ensures Valid() && View() == Tick(old(View()), now)
    {
      ghost var before := View();
      for i := 0 to |agents.keys|
        invariant View() == TickSome(before, agents.keys[..i], now)
      {
        var info := agents.data[agents.keys[i]];
        label one:
        TickNext(before, agents.keys, i, now);
        assert info.View() == View()[agents.keys[i]];
        CheckAgent(info, now);
        ViewAfterChange@one(info);
      }
    }
  }

  ghost function TickSome(agents: Agents, done: seq<string>, now: real): Agents {
    map n | n in agents :: if n in done then Checked(agents[n], now) else agents[n]
  }

  lemma TickNext(agents: Agents, keys: seq<string>, i: nat, now: real)
    requires i < |keys| && Distinct(keys) && keys[i] in agents
    ensures TickSome(agents, keys[..i], now)[keys[i]] == agents[keys[i]]
    ensures TickSome(agents, keys[..i + 1], now)
         == TickSome(agents, keys[..i], now)[keys[i] := Checked(agents[keys[i]], now)]
  {
    assert keys[..i + 1] == keys[..i] + [keys[i]];
  }

  // ---------------------------------------------------------------------- runs

  datatype Op = RegisterOp(name: string) | DeregisterOp(name: string) | HeartbeatOp(name: string) | TickOp

  datatype Step = Step(now: real, op: Op)

  function Do(agents: Agents, step: Step): Agents {
    match step.op
    case RegisterOp(n) => Register(agents, n, step.now)
    case DeregisterOp(n) => Deregister(agents, n)
    case HeartbeatOp(n) => Heartbeat(agents, n, step.now)
    case TickOp => Tick(agents, step.now)
  }

  function Run(steps: seq<Step>): Agents {
    if steps == [] then map[] else Do(Run(steps[..|steps| - 1]), steps[|steps| - 1])
  }

  function Clock(start: real, steps: seq<Step>): real {
    if steps == [] then start else steps[|steps| - 1].now
  }

  /** The time of the last pass of the monitor, or of its start. */
  function LastTick(start: real, steps: seq<Step>): real {
    if steps == [] then start
    else if steps[|steps| - 1].op.TickOp? then steps[|steps| - 1].now
    else LastTick(start, steps[..|steps| - 1])
  }

  /** The clock does not run backwards. */
  predicate Ordered(start: real, steps: seq<Step>) {
    steps == []
    || (Ordered(start, steps[..|steps| - 1]) && Clock(start, steps[..|steps| - 1]) <= steps[|steps| - 1].now)
  }

  /** Nothing happens more than `gap` after the last pass of the monitor without another: the gap is
      the interval it sleeps plus the time it takes to be scheduled and to go through the agents. */
  predicate Monitored(gap: real, start: real, steps: seq<Step>) {
    steps == []
    || (&& Monitored(gap, start, steps[..|steps| - 1])
        && steps[|steps| - 1].now <= LastTick(start, steps[..|steps| - 1]) + gap)
  }

  lemma {:induction false} LastTickBeforeClock(start: real, steps: seq<Step>)
    requires Ordered(start, steps)
    ensures LastTick(start, steps) <= Clock(start, steps)
  {
    if steps != [] {
      LastTickBeforeClock(start, steps[..|steps| - 1]);
    }
  }

  /** However irregular the monitor is, an agent is degraded exactly if it had been silent too long
      at its last pass. */
  lemma {:induction false} DegradedMeansSilentAtTick(start: real, steps: seq<Step>)
    requires Ordered(start, steps)
    ensures forall n | n in Run(steps) ::
      && Run(steps)[n].lastHeartbeat <= Clock(start, steps)
      && (Run(steps)[n].status == DEGRADED
          <==> LastTick(start, steps) - Run(steps)[n].lastHeartbeat > HEARTBEAT_TIMEOUT)
  {
    if steps != [] {
      DegradedMeansSilentAtTick(start, steps[..|steps| - 1]);
      LastTickBeforeClock(start, steps[..|steps| - 1]);
    }
  }

  /** Silent for 45 seconds or less is never degraded, whatever the monitor does. */
  lemma NeverTooEarly(start: real, steps: seq<Step>, name: string, now: real)
    requires Ordered(start, steps) && name in Run(steps) && Clock(start, steps) <= now
    requires now - Run(steps)[name].lastHeartbeat <= HEARTBEAT_TIMEOUT
    ensures Run(steps)[name].status != DEGRADED
  {
    DegradedMeansSilentAtTick(start, steps);
    LastTickBeforeClock(start, steps);
  }

  /** For every bound on the gap between passes: at any time at which the next pass is not overdue,
      silent for 45 seconds or less is never degraded, silent for more than 45 plus the gap is. */
  lemma DetectionBand(gap: real, start: real, steps: seq<Step>, name: string, now: real)
    requires Ordered(start, steps) && name in Run(steps)
    requires Clock(start, steps) <= now <= LastTick(start, steps) + gap
    ensures var a := Run(steps)[name];
      && (now - a.lastHeartbeat <= HEARTBEAT_TIMEOUT ==> a.status != DEGRADED)
      && (now - a.lastHeartbeat > HEARTBEAT_TIMEOUT + gap ==> a.status == DEGRADED)
  {
    DegradedMeansSilentAtTick(start, steps);
    LastTickBeforeClock(start, steps);
  }

  /** So in every state of a run with passes at most `gap` apart the status can be trusted. */
  lemma EveryStateInBand(gap: real, start: real, steps: seq<Step>, name: string)
    requires Ordered(start, steps) && Monitored(gap, start, steps) && name in Run(steps)
    ensures var a, now := Run(steps)[name], Clock(start, steps);
      && (now - a.lastHeartbeat <= HEARTBEAT_TIMEOUT ==> a.status != DEGRADED)
      && (now - a.lastHeartbeat > HEARTBEAT_TIMEOUT + gap ==> a.status == DEGRADED)
  {
    LastTickBeforeClock(start, steps[..|steps| - 1]);
    DetectionBand(gap, start, steps, name, Clock(start, steps));
  }

  lemma OneMore(gap: real, start: real, steps: seq<Step>, step: Step)
    requires Ordered(start, steps) && Monitored(gap, start, steps)
    requires Clock(start, steps) <= step.now <= LastTick(start, steps) + gap
    ensures var more := steps + [step];
      && Ordered(start, more) && Monitored(gap, start, more)
      && Run(more) == Do(Run(steps), step) && Clock(start, more) == step.now
      && LastTick(start, more) == if step.op.TickOp? then step.now else LastTick(start, steps)
  {
    assert (steps + [step])[..|steps|] == steps;
  }

  /** An agent that registers at time zero and is not heard of again, under `n` passes `d` apart. */
  function Silence(name: string, d: real, n: nat): seq<Step> {
    if n == 0 then [Step(0.0, RegisterOp(name))]
    else Silence(name, d, n - 1) + [Step(n as real * d, TickOp)]
  }

  lemma OneStepMore(d: real, n: nat)
    requires n > 0 && 0.0 < d
    ensures n as real * d == (n - 1) as real * d + d
  {
    assert n as real == (n - 1) as real + 1.0;
  }

  /** A run under this monitor that ends with a pass at `t`, in which the agent is silent since time
      zero and not degraded. */
  ghost predicate SilentUntil(gap: real, name: string, steps: seq<Step>, t: real) {
    && Ordered(0.0, steps) && Monitored(gap, 0.0, steps)
    && name in Run(steps) && Run(steps)[name] == Agent(REGISTERED, 0.0)
    && Clock(0.0, steps) == LastTick(0.0, steps) == t
  }

  lemma SilenceGoesOn(gap: real, name: string, steps: seq<Step>, t: real, now: real)
    requires SilentUntil(gap, name, steps, t) && t <= now <= t + gap && now <= HEARTBEAT_TIMEOUT
    ensures SilentUntil(gap, name, steps + [Step(now, TickOp)], now)
  {
    OneMore(gap, 0.0, steps, Step(now, TickOp));
  }

  lemma SilenceBegins(gap: real, name: string)
    requires 0.0 <= gap
    ensures SilentUntil(gap, name, [Step(0.0, RegisterOp(name))], 0.0)
  {
    var none: seq<Step> := [];
    OneMore(gap, 0.0, none, Step(0.0, RegisterOp(name)));
    assert none + [Step(0.0, RegisterOp(name))] == [Step(0.0, RegisterOp(name))];
  }

  lemma {:induction false} SilenceRuns(gap: real, name: string, d: real, n: nat, t: real)
    requires 0.0 < d <= gap && t == n as real * d && t <= HEARTBEAT_TIMEOUT
    ensures SilentUntil(gap, name, Silence(name, d, n), t)
  {
    if n == 0 {
      SilenceBegins(gap, name);
    } else {
      OneStepMore(d, n);
      SilenceRuns(gap, name, d, n - 1, t - d);
      SilenceGoesOn(gap, name, Silence(name, d, n - 1), t - d, t);
    }
  }

  lemma Cancelled(t: real, x: real, m: real)
    requires 0.0 < t && 0.0 < x && t / x < m
    ensures 0.0 < t / m <= x && m * (t / m) == t
  {
    var q, d := t / x, t / m;
    assert q * x == t && d * m == t;
    assert (m - q) * x > 0.0;
    if d > x {
      Larger(d, x, m);
      assert false;
    }
  }

  lemma Larger(d: real, x: real, m: real)
    requires d > x && m > 0.0
    ensures d * m > x * m
  {
  }

  /** The timeout is a whole number of equal steps no longer than `gap`. */
  lemma EvenSteps(gap: real) returns (d: real, n: nat)
    requires 0.0 < gap
    ensures 0.0 < d <= gap && n as real * d == HEARTBEAT_TIMEOUT
  {
    n := (HEARTBEAT_TIMEOUT / gap).Floor + 1;
    var m := n as real;
    d := HEARTBEAT_TIMEOUT / m;
    Cancelled(HEARTBEAT_TIMEOUT, gap, m);
  }

  /** Neither limit of the band can be improved: for every gap and every silence between them there
      is a run in which the agent is degraded and one in which it is not. */
  lemma BandIsTight(gap: real, name: string, silence: real) returns (early: seq<Step>, late: seq<Step>)
    requires 0.0 < gap && HEARTBEAT_TIMEOUT < silence <= HEARTBEAT_TIMEOUT + gap
    ensures Ordered(0.0, early) && Monitored(gap, 0.0, early)
    ensures Ordered(0.0, late) && Monitored(gap, 0.0, late)
    ensures name in Run(early) && Run(early)[name].status == DEGRADED
    ensures name in Run(late) && Run(late)[name].status != DEGRADED
    ensures Run(early)[name].lastHeartbeat == Run(late)[name].lastHeartbeat == 0.0
    ensures Clock(0.0, early) <= silence <= LastTick(0.0, early) + gap
    ensures Clock(0.0, late) <= silence <= LastTick(0.0, late) + gap
  {
    var d, n := EvenSteps(gap);
    SilenceRuns(gap, name, d, n, HEARTBEAT_TIMEOUT);
    late := Silence(name, d, n);
    OneMore(gap, 0.0, late, Step(silence, TickOp));
    early := late + [Step(silence, TickOp)];
  }

  // ------------------------------------------------------ what a record says

  /** Registered, and not deregistered since. */
  predicate Enlisted(steps: seq<Step>, name: string) {
    steps != [] &&
    match steps[|steps| - 1].op
    case RegisterOp(n) => n == name || Enlisted(steps[..|steps| - 1], name)
    case DeregisterOp(n) => n != name && Enlisted(steps[..|steps| - 1], name)
    case _ => Enlisted(steps[..|steps| - 1], name)
  }

  /** The time of the last registration or heartbeat. */
  function LastHeard(steps: seq<Step>, name: string): real {
    if steps == [] then 0.0
    else if steps[|steps| - 1].op in {RegisterOp(name), HeartbeatOp(name)} then steps[|steps| - 1].now
    else LastHeard(steps[..|steps| - 1], name)
  }

  /** There has been a heartbeat since the last registration. */
  predicate HasBeaten(steps: seq<Step>, name: string) {
    steps != [] && steps[|steps| - 1].op != RegisterOp(name)
    && (steps[|steps| - 1].op == HeartbeatOp(name) || HasBeaten(steps[..|steps| - 1], name))
  }

  /** After every run: known exactly if registered and not deregistered since; last heard of when it
      registered or last signalled; and unless degraded, registered until the first heartbeat and
      active from then on. */
  lemma {:induction false} RecordIsExact(steps: seq<Step>, name: string)
    ensures name in Run(steps) <==> Enlisted(steps, name)
    ensures name in Run(steps) ==>
      && Run(steps)[name].lastHeartbeat == LastHeard(steps, name)
      && Run(steps)[name].status in {REGISTERED, ACTIVE, DEGRADED}
      && (Run(steps)[name].status != DEGRADED ==>
            Run(steps)[name].status == if HasBeaten(steps, name) then ACTIVE else REGISTERED)
  {
    if steps != [] {
      RecordIsExact(steps[..|steps| - 1], name);
    }
  }

  /** So the whole record of an agent can be told from the run: it is degraded if it was silent for
      more than 45 seconds at the last pass, otherwise active if it ever signalled. */
  lemma StatusIsExact(start: real, steps: seq<Step>, name: string)
    requires Ordered(start, steps) && Enlisted(steps, name)
    ensures name in Run(steps)
    ensures Run(steps)[name] == Agent(
      if LastTick(start, steps) - LastHeard(steps, name) > 45.0 then DEGRADED
      else if HasBeaten(steps, name) then ACTIVE
      else REGISTERED,
      LastHeard(steps, name))
  {
    RecordIsExact(steps, name);
    DegradedMeansSilentAtTick(start, steps);
  }

  /** If passes were exactly an interval apart: never up to 45 seconds, always after 60. */
  lemma DetectionBandAtInterval(start: real, steps: seq<Step>, name: string, now: real)
    requires Ordered(start, steps) && name in Run(steps)
    requires Clock(start, steps) <= now <= LastTick(start, steps) + HEARTBEAT_INTERVAL
    ensures var a := Run(steps)[name];
      && (now - a.lastHeartbeat <= 45.0 ==> a.status != DEGRADED)
      && (now - a.lastHeartbeat > 60.0 ==> a.status == DEGRADED)
  {
    DetectionBand(HEARTBEAT_INTERVAL, start, steps, name, now);
  }
}
