/** The sampling protocol for several processes: one loop, one worker thread for
    each process, and a monitor that adds processes, as interleaved steps.
    Notifications and samples carry the tick they belong to; the marks, like
    `tick`, `asked` and `delivered`, only record history. */
module Sampler {
  import opened Wrappers
  import opened StackTraces

  type Pid = Int32

  /** What a worker reports once: its profiler started, or it failed to. */
  datatype Status = Started | Failed

  /** Which of the three channels a worker that is leaving still holds its end of. */
  datatype Ends = Ends(initial: bool, requests: bool, samples: bool)

  const ALL_OPEN: Ends := Ends(true, true, true)

  datatype Channel = Initial | Requests | Samples

  datatype Worker = Starting | Waiting | Busy(request: nat) | Leaving(open: Ends)

  /** One spy: the fields of the sampling side, its three channels, and its worker. */
  datatype Spy = Spy(
    initialized: Option<Status>, running: bool, notified: bool,
    initQueue: seq<Status>, notifyQueue: seq<nat>, sampleQueue: seq<nat>,
    worker: Worker)

  const NEW_SPY: Spy := Spy(None, false, false, [], [], [], Starting)

  predicate IsOpen(ends: Ends, channel: Channel) {
    match channel
    case Initial => ends.initial
    case Requests => ends.requests
    case Samples => ends.samples
  }

  function Without(ends: Ends, channel: Channel): Ends {
    match channel
    case Initial => ends.(initial := false)
    case Requests => ends.(requests := false)
    case Samples => ends.(samples := false)
  }

  function CountOpen(ends: Ends): nat {
    (if ends.initial then 1 else 0) + (if ends.requests then 1 else 0) + if ends.samples then 1 else 0
  }

  /** The worker still holds its end of the channel. */
  predicate Holds(s: Spy, channel: Channel) {
    s.worker.Leaving? ==> IsOpen(s.worker.open, channel)
  }

  // ----- the worker thread -----

  datatype WorkerAction = Starts(status: Status) | Takes | Answers | Exits | Drops(channel: Channel)

  predicate CanAct(s: Spy, action: WorkerAction) {
    match action
    case Starts(_) => s.worker.Starting?
    case Takes => s.worker.Waiting? && s.notifyQueue != []
    case Answers => s.worker.Busy?
    case Exits => s.worker.Busy? || s.worker.Starting?
    case Drops(channel) => s.worker.Leaving? && IsOpen(s.worker.open, channel)
  }

  /** A worker that leaves drops its ends of the channels one after the other, in
      any order; what is queued for it goes with its end. */
  function Act(s: Spy, action: WorkerAction): Spy
    requires CanAct(s, action)
  {
    match action
    case Starts(status) =>
      s.(initQueue := s.initQueue + [status], worker := if status == Started then Waiting else Leaving(ALL_OPEN))
    case Takes => s.(notifyQueue := s.notifyQueue[1..], worker := Busy(s.notifyQueue[0]))
    case Answers => s.(sampleQueue := s.sampleQueue + [s.worker.request], worker := Waiting)
    case Exits => s.(worker := Leaving(ALL_OPEN))
    case Drops(channel) =>
      s.(notifyQueue := if channel == Requests then [] else s.notifyQueue,
         worker := Leaving(Without(s.worker.open, channel)))
  }

  // ----- the sampling side -----

  function TakeStatus(s: Spy): Spy
    requires s.initQueue != []
  {
    s.(initialized := Some(s.initQueue[0]), running := s.initQueue[0] == Started, initQueue := s.initQueue[1..])
  }

  /** The blocking wait returns when a status has come or the worker's end is closed. */
  predicate CanWait(s: Spy) {
    s.initQueue != [] || !Holds(s, Initial)
  }

  function WaitInitialized(s: Spy): (Spy, bool)
    requires CanWait(s)
  {
    if s.initQueue != [] then (TakeStatus(s), TakeStatus(s).running) else (s, false)
  }

  function Initialized(s: Spy): (Spy, bool) {
    if s.initialized.Some? then (s, s.initialized.value == Started)
    else if s.initQueue != [] then (TakeStatus(s), TakeStatus(s).running)
    else (s, false)
  }

  function Notify(s: Spy, tick: nat): Spy {
    if !Holds(s, Requests) then s.(running := false)
    else s.(notifyQueue := s.notifyQueue + [tick], notified := true)
  }

  /** The blocking receive returns when a sample is there or the worker's end is closed. */
  predicate CanCollect(s: Spy) {
    !s.notified || s.sampleQueue != [] || !Holds(s, Samples)
  }

  function Collect(s: Spy): (Spy, Option<nat>)
    requires CanCollect(s)
  {
    if !s.notified then (s, None)
    else if s.sampleQueue != [] then (s.(notified := false, sampleQueue := s.sampleQueue[1..]), Some(s.sampleQueue[0]))
    else (s.(notified := false, running := false), None)
  }

  // ----- the system -----

  /** Where the sampling loop is; from the start of a tick to its end it holds the
      lock on the spies.  The lists are what is left of an iteration over the map. */
  datatype Loop = SettingUp | Idle | Notifying(todo: seq<Pid>) | Collecting(todo: seq<Pid>) | Stopped

  /** A sample that was collected, the tick it was collected in, and its mark. */
  datatype Delivery = Delivery(tick: nat, pid: Pid, answers: nat)

  datatype System = System(spies: map<Pid, Spy>, loop: Loop, tick: nat, asked: set<Pid>, delivered: seq<Delivery>)

  datatype Step =
    | Work(pid: Pid, action: WorkerAction)
    | AddSpy(pid: Pid)
    | WaitFor(pid: Pid)
    | StartSampling
    | BeginTick(order: seq<Pid>)
    | NotifyNext
    | BeginCollecting(order: seq<Pid>)
    | CollectNext
    | EndTick(hungUp: bool)

  ghost predicate Enumerates(order: seq<Pid>, keys: set<Pid>) {
    (forall i, j | 0 <= i < j < |order| :: order[i] != order[j]) && forall pid :: pid in order <==> pid in keys
  }

  ghost predicate Enabled(sys: System, step: Step) {
    match step
    case Work(pid, action) => pid in sys.spies && CanAct(sys.spies[pid], action)
    case AddSpy(pid) => sys.loop.SettingUp? || (sys.loop.Idle? && pid !in sys.spies)
    case WaitFor(pid) => sys.loop.SettingUp? && pid in sys.spies && CanWait(sys.spies[pid])
    case StartSampling => sys.loop.SettingUp?
    case BeginTick(order) => sys.loop.Idle? && Enumerates(order, sys.spies.Keys)
    case NotifyNext => sys.loop.Notifying? && sys.loop.todo != [] && sys.loop.todo[0] in sys.spies
    case BeginCollecting(order) => sys.loop.Notifying? && sys.loop.todo == [] && Enumerates(order, sys.spies.Keys)
    case CollectNext =>
      && sys.loop.Collecting? && sys.loop.todo != []
      && sys.loop.todo[0] in sys.spies && CanCollect(sys.spies[sys.loop.todo[0]])
    case EndTick(_) => sys.loop.Collecting? && sys.loop.todo == []
  }

  function NotifyOne(sys: System, pid: Pid): System
    requires pid in sys.spies
  {
    var (s, ready) := Initialized(sys.spies[pid]);
    if ready then
      var n := Notify(s, sys.tick);
      sys.(spies := sys.spies[pid := n], asked := if n.notified then sys.asked + {pid} else sys.asked)
    else sys.(spies := sys.spies[pid := s])
  }

  function CollectOne(sys: System, pid: Pid): System
    requires pid in sys.spies && CanCollect(sys.spies[pid])
  {
    var (s, sample) := Collect(sys.spies[pid]);
    sys.(spies := sys.spies[pid := s],
         delivered := if sample.Some? then sys.delivered + [Delivery(sys.tick, pid, sample.value)] else sys.delivered)
  }

  predicate NoneRunning(spies: map<Pid, Spy>) {
    forall pid | pid in spies :: !spies[pid].running
  }

  ghost function Take(sys: System, step: Step): System
    requires Enabled(sys, step)
  {
    match step
    case Work(pid, action) => sys.(spies := sys.spies[pid := Act(sys.spies[pid], action)])
    case AddSpy(pid) => sys.(spies := sys.spies[pid := NEW_SPY])
    case WaitFor(pid) => sys.(spies := sys.spies[pid := WaitInitialized(sys.spies[pid]).0])
    case StartSampling => sys.(loop := Idle)
    case BeginTick(order) => sys.(loop := Notifying(order), tick := sys.tick + 1, asked := {})
    case NotifyNext => NotifyOne(sys, sys.loop.todo[0]).(loop := Notifying(sys.loop.todo[1..]))
    case BeginCollecting(order) => sys.(loop := Collecting(order))
    case CollectNext => CollectOne(sys, sys.loop.todo[0]).(loop := Collecting(sys.loop.todo[1..]))
    case EndTick(hungUp) => sys.(loop := if hungUp || NoneRunning(sys.spies) then Stopped else Idle)
  }

  const INITIAL: System := System(map[], SettingUp, 0, {}, [])

  // ----- the invariant of one spy -----

  /** The marks of all messages on their way between the loop and the worker.  A
      worker that is leaving reads no more notifications. */
  function InFlight(s: Spy): seq<nat> {
    if s.worker.Leaving? then s.sampleQueue
    else s.notifyQueue + (if s.worker.Busy? then [s.worker.request] else []) + s.sampleQueue
  }

  predicate SpyOk(s: Spy, tick: nat) {
    // a notified spy has exactly one message under way, unless its worker is leaving
    && InFlight(s) == (if s.notified && !s.worker.Leaving? then [tick] else [])
    // the status comes once, or not at all from a worker that died before it
    && (s.worker.Starting? ==> s.initialized == None && s.initQueue == [])
    && (s.initialized.Some? ==> s.initQueue == [])
    && (s.initialized.None? && !s.worker.Starting? && !s.worker.Leaving? ==> |s.initQueue| == 1)
    && |s.initQueue| <= 1
    && (s.initQueue == [Failed] || s.initialized == Some(Failed) ==> s.worker.Leaving?)
    // only started spies are notified, and only spies without a worker are given up
    && (s.notified ==> s.initialized == Some(Started))
    && (s.running ==> s.initialized == Some(Started))
    && (s.initialized == Some(Started) && !s.running ==> s.worker.Leaving?)
  }

  lemma WorkerKeepsSpy(s: Spy, action: WorkerAction, tick: nat)
    requires SpyOk(s, tick) && CanAct(s, action)
    ensures SpyOk(Act(s, action), tick)
    ensures Act(s, action).notified == s.notified && Act(s, action).running == s.running
    ensures s.worker.Leaving? ==> Act(s, action).worker.Leaving?
  {
    var after := Act(s, action);
    match action
    case Starts(status) => assert after.initQueue == [status] && InFlight(after) == InFlight(s);
    case Takes => assert s.notifyQueue == [tick] && s.sampleQueue == [] && after.notifyQueue == [];
    case Answers => assert InFlight(s) == [tick] && s.notifyQueue == [] && s.sampleQueue == [];
    case Exits => assert InFlight(after) == s.sampleQueue;
    case Drops(_) =>
  }

  lemma InitializedKeepsSpy(s: Spy, tick: nat)
    requires SpyOk(s, tick)
    ensures var (after, ready) := Initialized(s);
      && SpyOk(after, tick) && after.notified == s.notified && after.worker == s.worker
      && (ready ==> after.initialized == Some(Started))
      && (s.initialized.Some? ==> after == s)
  {
    var after := Initialized(s).0;
    if s.initialized.None? && s.initQueue != [] {
      assert after.initQueue == [];
    }
  }

  lemma WaitKeepsSpy(s: Spy, tick: nat)
    requires SpyOk(s, tick) && CanWait(s)
    ensures SpyOk(WaitInitialized(s).0, tick) && WaitInitialized(s).0.notified == s.notified
  {
    if s.initQueue != [] {
      assert TakeStatus(s).initQueue == [];
    }
  }

  lemma NotifyKeepsSpy(s: Spy, tick: nat)
    requires SpyOk(s, tick) && !s.notified && s.initialized == Some(Started)
    ensures SpyOk(Notify(s, tick), tick)
    ensures Notify(s, tick).notified <==> Holds(s, Requests)
  {
    if !s.worker.Leaving? {
      assert InFlight(s) == [] && s.notifyQueue == [] && s.sampleQueue == [];
      assert InFlight(Notify(s, tick)) == [tick];
    }
  }

  lemma CollectKeepsSpy(s: Spy, tick: nat)
    requires SpyOk(s, tick) && CanCollect(s)
    ensures var (after, sample) := Collect(s);
      && SpyOk(after, tick) && !after.notified
      && (sample.Some? ==> s.notified && sample.value == tick)
      && (s.notified && sample.None? ==> after.worker.Leaving? && !after.running)
      && (!s.notified ==> after == s)
  {
    if s.notified && s.sampleQueue != [] {
      assert !s.worker.Leaving?;
      assert InFlight(s) == [tick] && s.sampleQueue == [tick];
    }
  }

  // ----- the invariant of the system -----

  predicate Answered(sys: System, pid: Pid) {
    Delivery(sys.tick, pid, sys.tick) in sys.delivered
  }

  predicate GivenUp(sys: System, pid: Pid) {
    pid in sys.spies && sys.spies[pid].worker.Leaving? && !sys.spies[pid].running
  }

  /** Every sample answers the notification of the tick it was collected in, and a
      spy gives at most one in a tick. */
  predicate DeliveriesOk(delivered: seq<Delivery>, tick: nat) {
    && (forall d | d in delivered :: d.answers == d.tick <= tick)
    && (forall i, j | 0 <= i < j < |delivered| ::
          delivered[i].tick == delivered[j].tick ==> delivered[i].pid != delivered[j].pid)
  }

  predicate Distinct(pids: seq<Pid>) {
    forall i, j | 0 <= i < j < |pids| :: pids[i] != pids[j]
  }

  predicate NobodyNotified(sys: System) {
    forall pid | pid in sys.spies :: !sys.spies[pid].notified
  }

  /** Who was notified in this tick is still to be collected, has answered, or is given up. */
  predicate AskedAreSettled(sys: System, todo: seq<Pid>) {
    forall pid | pid in sys.asked ::
      (pid in todo && pid in sys.spies && sys.spies[pid].notified) || Answered(sys, pid) || GivenUp(sys, pid)
  }

  ghost predicate LoopOk(sys: System) {
    match sys.loop
    case SettingUp => NobodyNotified(sys) && sys.tick == 0 && sys.delivered == [] && sys.asked == {}
    case Idle => NobodyNotified(sys) && AskedAreSettled(sys, [])
    case Stopped => NobodyNotified(sys) && AskedAreSettled(sys, [])
    case Notifying(todo) =>
      && Distinct(todo)
      && (forall pid | pid in todo :: pid in sys.spies && !sys.spies[pid].notified && pid !in sys.asked)
      && (forall pid | pid in sys.asked :: pid in sys.spies && sys.spies[pid].notified)
      && (forall pid | pid in sys.spies && sys.spies[pid].notified :: pid in sys.asked)
      && (forall d | d in sys.delivered :: d.tick < sys.tick)
    case Collecting(todo) =>
      && Distinct(todo) && (forall pid | pid in todo :: pid in sys.spies)
      && (forall pid | pid in sys.spies && sys.spies[pid].notified :: pid in todo)
      && (forall d | d in sys.delivered && d.tick == sys.tick :: d.pid !in todo)
      && AskedAreSettled(sys, todo)
  }

  ghost predicate Inv(sys: System) {
    && (forall pid | pid in sys.spies :: SpyOk(sys.spies[pid], sys.tick))
    && DeliveriesOk(sys.delivered, sys.tick)
    && LoopOk(sys)
  }

  // ----- every step keeps the invariant -----

  lemma WorkStep(sys: System, pid: Pid, action: WorkerAction)
    requires Inv(sys) && Enabled(sys, Work(pid, action))
    ensures Inv(Take(sys, Work(pid, action)))
  {
    hide SpyOk, DeliveriesOk, Distinct, Act, CanAct;
    assert CanAct(sys.spies[pid], action);
    WorkerKeepsSpy(sys.spies[pid], action, sys.tick);
  }

  lemma AddSpyStep(sys: System, pid: Pid)
    requires Inv(sys) && Enabled(sys, AddSpy(pid))
    ensures Inv(Take(sys, AddSpy(pid)))
  {
    assert SpyOk(NEW_SPY, sys.tick);
    hide SpyOk, DeliveriesOk;
  }

  lemma WaitForStep(sys: System, pid: Pid)
    requires Inv(sys) && Enabled(sys, WaitFor(pid))
    ensures Inv(Take(sys, WaitFor(pid)))
  {
    hide SpyOk, WaitInitialized, CanWait, DeliveriesOk;
    WaitKeepsSpy(sys.spies[pid], sys.tick);
  }

  lemma StartSamplingStep(sys: System)
    requires Inv(sys) && Enabled(sys, StartSampling)
    ensures Inv(Take(sys, StartSampling))
  {
    hide SpyOk, DeliveriesOk;
  }

  lemma NextTick(s: Spy, delivered: seq<Delivery>, tick: nat)
    ensures SpyOk(s, tick) && !s.notified ==> SpyOk(s, tick + 1)
    ensures DeliveriesOk(delivered, tick) ==> DeliveriesOk(delivered, tick + 1)
  {
  }

  lemma SpiesOfNextTick(sys: System)
    requires Inv(sys) && NobodyNotified(sys)
    ensures forall pid | pid in sys.spies :: SpyOk(sys.spies[pid], sys.tick + 1)
    ensures DeliveriesOk(sys.delivered, sys.tick + 1) && forall d | d in sys.delivered :: d.tick <= sys.tick
  {
    hide SpyOk, LoopOk;
    NextTick(NEW_SPY, sys.delivered, sys.tick);
    forall pid | pid in sys.spies ensures SpyOk(sys.spies[pid], sys.tick + 1) {
      NextTick(sys.spies[pid], [], sys.tick);
    }
  }

  lemma BeginTickStep(sys: System, order: seq<Pid>)
    requires Inv(sys) && Enabled(sys, BeginTick(order))
    ensures Inv(Take(sys, BeginTick(order)))
  {
    hide SpyOk, DeliveriesOk, AskedAreSettled;
    SpiesOfNextTick(sys);
  }

  /** A spy not notified before is asked exactly when it is notified now. */
  lemma NotifyOneSpy(sys: System, pid: Pid)
    requires pid in sys.spies && SpyOk(sys.spies[pid], sys.tick) && !sys.spies[pid].notified
    ensures pid in NotifyOne(sys, pid).spies
    ensures var n := NotifyOne(sys, pid).spies[pid];
      && SpyOk(n, sys.tick)
      && NotifyOne(sys, pid)
         == sys.(spies := sys.spies[pid := n], asked := if n.notified then sys.asked + {pid} else sys.asked)
  {
    InitializedKeepsSpy(sys.spies[pid], sys.tick);
    var (s, ready) := Initialized(sys.spies[pid]);
    if ready {
      NotifyKeepsSpy(s, sys.tick);
    }
    hide SpyOk, Initialized, Notify;
  }

  lemma FirstOfDistinct(pids: seq<Pid>)
    requires Distinct(pids) && pids != []
    ensures Distinct(pids[1..])
    ensures forall pid :: pid in pids[1..] <==> pid in pids && pid != pids[0]
  {
    forall pid ensures pid in pids[1..] <==> pid in pids && pid != pids[0] {
      if pid in pids && pid != pids[0] {
        var i :| 0 <= i < |pids| && pids[i] == pid;
        assert pids[1..][i - 1] == pid;
      }
    }
  }

  lemma NotifyStep(sys: System)
    requires Inv(sys) && Enabled(sys, NotifyNext)
    ensures Inv(Take(sys, NotifyNext))
  {
    hide SpyOk, DeliveriesOk, Distinct, NotifyOne;
    NotifyOneSpy(sys, sys.loop.todo[0]);
    FirstOfDistinct(sys.loop.todo);
  }

  lemma BeginCollectingStep(sys: System, order: seq<Pid>)
    requires Inv(sys) && Enabled(sys, BeginCollecting(order))
    ensures Inv(Take(sys, BeginCollecting(order)))
  {
    hide SpyOk, DeliveriesOk;
  }

  /** A notified spy gives the sample of this tick or is given up; any other is left alone. */
  lemma CollectOneSpy(sys: System, pid: Pid)
    requires pid in sys.spies && SpyOk(sys.spies[pid], sys.tick) && CanCollect(sys.spies[pid])
    ensures pid in CollectOne(sys, pid).spies
    ensures var c := CollectOne(sys, pid).spies[pid];
      var delivered := CollectOne(sys, pid).delivered;
      && SpyOk(c, sys.tick) && !c.notified
      && CollectOne(sys, pid) == sys.(spies := sys.spies[pid := c], delivered := delivered)
      && (delivered == sys.delivered || delivered == sys.delivered + [Delivery(sys.tick, pid, sys.tick)])
      && (sys.spies[pid].notified && delivered == sys.delivered ==> c.worker.Leaving? && !c.running)
      && (!sys.spies[pid].notified ==> c == sys.spies[pid])
  {
    CollectKeepsSpy(sys.spies[pid], sys.tick);
    hide SpyOk, Collect;
  }

  lemma DeliverOne(delivered: seq<Delivery>, tick: nat, pid: Pid)
    requires DeliveriesOk(delivered, tick)
    requires forall d | d in delivered && d.tick == tick :: d.pid != pid
    ensures DeliveriesOk(delivered + [Delivery(tick, pid, tick)], tick)
  {
    assert forall i | 0 <= i < |delivered| :: delivered[i] in delivered;
  }

  lemma CollectStep(sys: System)
    requires Inv(sys) && Enabled(sys, CollectNext)
    ensures Inv(Take(sys, CollectNext))
  {
    hide SpyOk, CollectOne, CanCollect, DeliveriesOk, Distinct;
    var pid := sys.loop.todo[0];
    CollectOneSpy(sys, pid);
    DeliverOne(sys.delivered, sys.tick, pid);
    FirstOfDistinct(sys.loop.todo);
  }

  lemma EndTickStep(sys: System, hungUp: bool)
    requires Inv(sys) && Enabled(sys, EndTick(hungUp))
    ensures Inv(Take(sys, EndTick(hungUp)))
  {
    hide SpyOk, DeliveriesOk;
  }

  lemma StepKeepsInv(sys: System, step: Step)
    requires Inv(sys) && Enabled(sys, step)
    ensures Inv(Take(sys, step))
  {
    match step
    case Work(pid, action) => WorkStep(sys, pid, action);
    case AddSpy(pid) => AddSpyStep(sys, pid);
    case WaitFor(pid) => WaitForStep(sys, pid);
    case StartSampling => StartSamplingStep(sys);
    case BeginTick(order) => BeginTickStep(sys, order);
    case NotifyNext => NotifyStep(sys);
    case BeginCollecting(order) => BeginCollectingStep(sys, order);
    case CollectNext => CollectStep(sys);
    case EndTick(hungUp) => EndTickStep(sys, hungUp);
  }

  // ----- runs -----

  ghost predicate IsRun(sys: System, steps: seq<Step>)
    decreases |steps|
  {
    steps == [] || (Enabled(sys, steps[0]) && IsRun(Take(sys, steps[0]), steps[1..]))
  }

  ghost function After(sys: System, steps: seq<Step>): System
    requires IsRun(sys, steps)
    decreases |steps|
  {
    if steps == [] then sys else After(Take(sys, steps[0]), steps[1..])
  }

  lemma {:induction false} RunKeepsInv(sys: System, steps: seq<Step>)
    requires Inv(sys) && IsRun(sys, steps)
    ensures Inv(After(sys, steps))
    decreases |steps|
  {
    if steps != [] {
      StepKeepsInv(sys, steps[0]);
      RunKeepsInv(Take(sys, steps[0]), steps[1..]);
    }
  }

  lemma ReachableInv(steps: seq<Step>)
    requires IsRun(INITIAL, steps)
    ensures Inv(After(INITIAL, steps))
  {
    RunKeepsInv(INITIAL, steps);
  }

  /** In every interleaving, a live worker has exactly one message under way if its
      spy is notified and none otherwise; every sample answers the notification of
      the tick that collects it, one to a spy; between ticks nothing is under way. */
  lemma OneMessageUnderWay(steps: seq<Step>)
    requires IsRun(INITIAL, steps)
    ensures var sys := After(INITIAL, steps);
      && (forall pid | pid in sys.spies && !sys.spies[pid].worker.Leaving? ::
            |InFlight(sys.spies[pid])| == if sys.spies[pid].notified then 1 else 0)
      && (forall d | d in sys.delivered :: d.answers == d.tick)
      && (forall i, j | 0 <= i < j < |sys.delivered| ::
            sys.delivered[i].tick == sys.delivered[j].tick ==> sys.delivered[i].pid != sys.delivered[j].pid)
      && (sys.loop.Idle? || sys.loop.Stopped? ==> forall pid | pid in sys.spies :: InFlight(sys.spies[pid]) == [])
  {
    ReachableInv(steps);
    var sys := After(INITIAL, steps);
    assert forall pid | pid in sys.spies :: SpyOk(sys.spies[pid], sys.tick);
  }

  /** When a tick is over, every spy notified in it has given its sample, or its
      worker is leaving and the spy is no longer counted as running. */
  lemma TickAnswersEveryNotification(steps: seq<Step>)
    requires IsRun(INITIAL, steps)
    ensures var sys := After(INITIAL, steps);
      sys.loop.Idle? || sys.loop.Stopped? ==>
        forall pid | pid in sys.asked :: Answered(sys, pid) || GivenUp(sys, pid)
  {
    ReachableInv(steps);
  }

  // ----- every ready spy is sampled in every tick -----

  /** The worker of this spy has reported its start: the loop knows, or will find the report. */
  predicate HasStarted(s: Spy) {
    s.initialized == Some(Started) || (s.initialized == None && s.initQueue == [Started])
  }

  predicate Asks(s: Spy) {
    HasStarted(s) && (s.worker.Leaving? ==> s.worker.open.requests)
  }

  lemma StartedSpyIsNotified(sys: System, pid: Pid)
    requires pid in sys.spies && SpyOk(sys.spies[pid], sys.tick) && !sys.spies[pid].notified
    ensures pid in NotifyOne(sys, pid).spies
    ensures var s, n := sys.spies[pid], NotifyOne(sys, pid).spies[pid];
      && n.notified == Asks(s) && n.worker == s.worker && HasStarted(n) == HasStarted(s)
      && (Asks(s) && !s.worker.Leaving? ==> InFlight(n) == [sys.tick])
      && (HasStarted(s) && !Asks(s) ==> !n.running)
  {
    NotifyOneSpy(sys, pid);
    assert SpyOk(NotifyOne(sys, pid).spies[pid], sys.tick);
    hide InFlight;
  }

  /** The turn of a spy.  It is asked exactly when its worker has reported its start and
      still receives; if the worker is not leaving, the request of this tick is then the
      only message under way, and one that no longer receives is given up.  No other spy
      is touched. */
  lemma StartedSpyIsAsked(sys: System)
    requires Inv(sys) && Enabled(sys, NotifyNext)
    ensures var pid := sys.loop.todo[0];
      var s, after := sys.spies[pid], Take(sys, NotifyNext);
      && pid in after.spies && after.asked == (if Asks(s) then sys.asked + {pid} else sys.asked)
      && after.spies[pid].notified == Asks(s) && after.spies[pid].worker == s.worker
      && HasStarted(after.spies[pid]) == HasStarted(s)
      && (Asks(s) && !s.worker.Leaving? ==> InFlight(after.spies[pid]) == [sys.tick])
      && (HasStarted(s) && !Asks(s) ==> !after.spies[pid].running)
      && after == sys.(spies := sys.spies[pid := after.spies[pid]], asked := after.asked,
                       loop := Notifying(sys.loop.todo[1..]))
  {
    var pid := sys.loop.todo[0];
    hide SpyOk, Asks, NotifyOne, InFlight, HasStarted, DeliveriesOk;
    StartedSpyIsNotified(sys, pid);
    NotifyOneSpy(sys, pid);
  }

  /** In this tick the spy is still to be asked, has been asked, or has lost its worker. */
  predicate IsServed(sys: System, pid: Pid, tick: nat) {
    && sys.tick == tick && pid in sys.spies && HasStarted(sys.spies[pid])
    && (|| pid in sys.asked || sys.spies[pid].worker.Leaving?
        || (sys.loop.Notifying? && pid in sys.loop.todo))
  }

  lemma WorkerStaysStarted(s: Spy, action: WorkerAction, tick: nat)
    requires SpyOk(s, tick) && CanAct(s, action) && HasStarted(s)
    ensures HasStarted(Act(s, action)) && (s.worker.Leaving? ==> Act(s, action).worker.Leaving?)
  {
    hide InFlight;
  }

  lemma CollectedStaysStarted(s: Spy)
    requires CanCollect(s) && HasStarted(s)
    ensures HasStarted(Collect(s).0) && Collect(s).0.worker == s.worker
  {
  }

  lemma TodoIsDistinct(sys: System)
    requires Inv(sys) && sys.loop.Notifying?
    ensures Distinct(sys.loop.todo)
  {
  }

  lemma TurnServes(sys: System, pid: Pid)
    requires Inv(sys) && Enabled(sys, NotifyNext) && IsServed(sys, pid, sys.tick)
    ensures IsServed(Take(sys, NotifyNext), pid, sys.tick) && Take(sys, NotifyNext).tick == sys.tick
    ensures !Take(sys, NotifyNext).loop.SettingUp?
  {
    hide Inv, Take, HasStarted, InFlight, Distinct;
    TodoIsDistinct(sys);
    StartedSpyIsAsked(sys);
    FirstOfDistinct(sys.loop.todo);
  }

  lemma WorkServes(sys: System, p: Pid, action: WorkerAction, pid: Pid)
    requires Inv(sys) && Enabled(sys, Work(p, action)) && !sys.loop.SettingUp? && IsServed(sys, pid, sys.tick)
    ensures var after := Take(sys, Work(p, action));
      IsServed(after, pid, sys.tick) && after.tick == sys.tick && !after.loop.SettingUp?
  {
    if p == pid {
      WorkerStaysStarted(sys.spies[p], action, sys.tick);
    }
    hide Inv, HasStarted, Act, CanAct;
  }

  lemma CollectServes(sys: System, pid: Pid)
    requires Enabled(sys, CollectNext) && IsServed(sys, pid, sys.tick)
    ensures var after := Take(sys, CollectNext);
      IsServed(after, pid, sys.tick) && after.tick == sys.tick && !after.loop.SettingUp?
  {
    if sys.loop.todo[0] == pid {
      CollectedStaysStarted(sys.spies[pid]);
    }
    hide HasStarted, Collect, CanCollect;
  }

  lemma StepServes(sys: System, step: Step, pid: Pid)
    requires Inv(sys) && Enabled(sys, step) && !step.BeginTick? && !sys.loop.SettingUp?
    requires IsServed(sys, pid, sys.tick)
    ensures IsServed(Take(sys, step), pid, sys.tick) && Take(sys, step).tick == sys.tick
    ensures !Take(sys, step).loop.SettingUp?
  {
    match step
    case Work(p, action) =>
      WorkServes(sys, p, action, pid);
      hide Inv, Take, IsServed;
    case NotifyNext =>
      TurnServes(sys, pid);
      hide Inv, Take, IsServed;
    case CollectNext =>
      CollectServes(sys, pid);
      hide Inv, Take, IsServed;
    case _ =>
      hide SpyOk, HasStarted, DeliveriesOk, LoopOk;
  }

  predicate BeginsNoTick(steps: seq<Step>) {
    forall i | 0 <= i < |steps| :: !steps[i].BeginTick?
  }

  lemma {:induction false} RunServes(sys: System, steps: seq<Step>, pid: Pid)
    requires Inv(sys) && IsRun(sys, steps) && BeginsNoTick(steps) && !sys.loop.SettingUp?
    requires IsServed(sys, pid, sys.tick)
    ensures IsServed(After(sys, steps), pid, sys.tick) && After(sys, steps).tick == sys.tick
    ensures !After(sys, steps).loop.SettingUp?
    decreases |steps|
  {
    if steps != [] {
      hide Inv, Take, Enabled, IsServed;
      StepKeepsInv(sys, steps[0]);
      StepServes(sys, steps[0], pid);
      RunServes(Take(sys, steps[0]), steps[1..], pid);
    }
  }

  lemma ServedIsSampled(sys: System, pid: Pid)
    requires Inv(sys) && IsServed(sys, pid, sys.tick)
    ensures pid in sys.spies
    ensures sys.loop.Idle? || sys.loop.Stopped? ==>
              Delivery(sys.tick, pid, sys.tick) in sys.delivered || sys.spies[pid].worker.Leaving?
  {
    hide SpyOk, HasStarted, DeliveriesOk;
  }

  lemma TickServes(sys: System, order: seq<Pid>, pid: Pid)
    requires Enabled(sys, BeginTick(order)) && pid in sys.spies && HasStarted(sys.spies[pid])
    ensures var start := Take(sys, BeginTick(order));
      IsServed(start, pid, sys.tick + 1) && start.tick == sys.tick + 1 && !start.loop.SettingUp?
  {
  }

  /** Every tick samples every spy whose worker has reported its start by then: when the
      tick is over its sample of this tick is delivered, or its worker is leaving. */
  lemma EveryTickSamplesStartedSpies(before: seq<Step>, order: seq<Pid>, steps: seq<Step>, pid: Pid)
    requires IsRun(INITIAL, before) && Enabled(After(INITIAL, before), BeginTick(order))
    requires IsRun(Take(After(INITIAL, before), BeginTick(order)), steps) && BeginsNoTick(steps)
    requires pid in After(INITIAL, before).spies && HasStarted(After(INITIAL, before).spies[pid])
    ensures var sys := After(Take(After(INITIAL, before), BeginTick(order)), steps);
      var tick := After(INITIAL, before).tick + 1;
      && sys.tick == tick && pid in sys.spies
      && (sys.loop.Idle? || sys.loop.Stopped? ==>
            Delivery(tick, pid, tick) in sys.delivered || sys.spies[pid].worker.Leaving?)
  {
    hide Inv, Take, Enabled, HasStarted, IsRun, After, BeginsNoTick, IsServed;
    ReachableInv(before);
    var start := Take(After(INITIAL, before), BeginTick(order));
    TickServes(After(INITIAL, before), order, pid);
    BeginTickStep(After(INITIAL, before), order);
    RunServes(start, steps, pid);
    RunKeepsInv(start, steps);
    ServedIsSampled(After(start, steps), pid);
  }

  /** Waiting for a spy ends with its report, if there is one, and then the spy is running
      exactly if it has started; without a report the worker is gone. */
  lemma WaitingLearnsStatus(sys: System, pid: Pid)
    requires Inv(sys) && Enabled(sys, WaitFor(pid))
    ensures var s, after := sys.spies[pid], Take(sys, WaitFor(pid));
      && pid in after.spies && after == sys.(spies := sys.spies[pid := after.spies[pid]])
      && (s.initQueue == [] ==> after == sys && s.worker.Leaving?)
      && forall status | s.initQueue == [status] ::
           after.spies[pid] == s.(initialized := Some(status), running := status == Started, initQueue := [])
  {
    hide InFlight, DeliveriesOk, LoopOk;
    assert SpyOk(sys.spies[pid], sys.tick);
  }

  /** A process found while sampling goes on joins between two ticks, and only then, with a
      worker that has yet to start. */
  lemma SpiesJoinBetweenTicks(sys: System, pid: Pid)
    requires !sys.loop.SettingUp? && pid !in sys.spies
    ensures Enabled(sys, AddSpy(pid)) <==> sys.loop.Idle?
    ensures Enabled(sys, AddSpy(pid)) ==>
              Take(sys, AddSpy(pid))
              == sys.(spies := sys.spies[pid := Spy(None, false, false, [], [], [], Starting)])
  {
  }

  lemma RunningHasStarted(s: Spy, tick: nat)
    requires SpyOk(s, tick)
    ensures s.running ==> s.initialized == Some(Started)
    ensures s.initialized == Some(Started) && !s.running ==> s.worker.Leaving?
  {
  }

  /** The loop stops exactly when the samples are no longer received or no started spy is
      running; so, as long as they are received, only when all their workers are leaving. */
  lemma LoopStopsWithoutWorkers(sys: System, hungUp: bool)
    requires Inv(sys) && Enabled(sys, EndTick(hungUp))
    ensures var after := Take(sys, EndTick(hungUp));
      && after == sys.(loop := after.loop) && (after.loop == Stopped || after.loop == Idle)
      && (after.loop == Stopped <==>
            hungUp || forall pid | pid in sys.spies && sys.spies[pid].initialized == Some(Started) ::
                        !sys.spies[pid].running)
      && (after.loop == Stopped && !hungUp ==>
            forall pid | pid in sys.spies && sys.spies[pid].initialized == Some(Started) ::
              sys.spies[pid].worker.Leaving?)
  {
    hide SpyOk, DeliveriesOk, LoopOk;
    forall pid | pid in sys.spies
      ensures sys.spies[pid].running ==> sys.spies[pid].initialized == Some(Started)
      ensures sys.spies[pid].initialized == Some(Started) && !sys.spies[pid].running ==>
                sys.spies[pid].worker.Leaving?
    {
      RunningHasStarted(sys.spies[pid], sys.tick);
    }
  }

  /** The loop stops counting a started spy as running only when its worker is leaving. */
  lemma LiveWorkersAreKept(steps: seq<Step>, pid: Pid)
    requires IsRun(INITIAL, steps)
    requires pid in After(INITIAL, steps).spies
    ensures var s := After(INITIAL, steps).spies[pid];
      s.initialized == Some(Started) ==> (s.running || s.worker.Leaving?)
  {
    ReachableInv(steps);
    assert SpyOk(After(INITIAL, steps).spies[pid], After(INITIAL, steps).tick);
  }

  lemma RunFrom(sys: System, step: Step, rest: seq<Step>)
    requires Enabled(sys, step) && IsRun(Take(sys, step), rest)
    ensures IsRun(sys, [step] + rest) && After(sys, [step] + rest) == After(Take(sys, step), rest)
  {
    hide Enabled, Take;
    assert ([step] + rest)[1..] == rest;
  }

  /** A worker may die before it reports; whoever waits for it then learns nothing, and
      sampling starts all the same. */
  lemma WorkerMayDieUnreported(pid: Pid)
    ensures var steps :=
        [AddSpy(pid)] + ([Work(pid, Exits)] + ([Work(pid, Drops(Initial))] + ([WaitFor(pid)] + [StartSampling])));
      && IsRun(INITIAL, steps)
      && var sys := After(INITIAL, steps);
      sys.loop == Idle && pid in sys.spies && sys.spies[pid].initialized == None && !sys.spies[pid].running
  {
    var s1 := Take(INITIAL, AddSpy(pid));
    var s2 := Take(s1, Work(pid, Exits));
    var s3 := Take(s2, Work(pid, Drops(Initial)));
    var s4 := Take(s3, WaitFor(pid));
    assert Enabled(s4, StartSampling) && IsRun(Take(s4, StartSampling), []);
    var s5 := Take(s4, StartSampling);
    assert s5.loop == Idle && s5.spies == map[pid := NEW_SPY.(worker := Leaving(Ends(false, true, true)))];
    assert [StartSampling] + [] == [StartSampling];
    hide Take, Enabled, IsRun;
    assert After(s5, []) == s5;
    hide After;
    RunFrom(s4, StartSampling, []);
    RunFrom(s3, WaitFor(pid), [StartSampling]);
    RunFrom(s2, Work(pid, Drops(Initial)), [WaitFor(pid)] + [StartSampling]);
    RunFrom(s1, Work(pid, Exits), [Work(pid, Drops(Initial))] + ([WaitFor(pid)] + [StartSampling]));
    RunFrom(INITIAL, AddSpy(pid),
            [Work(pid, Exits)] + ([Work(pid, Drops(Initial))] + ([WaitFor(pid)] + [StartSampling])));
  }

  // ----- no deadlock -----

  /** The loop waits for a sample of `pid`. */
  predicate BlockedOn(sys: System, pid: Pid) {
    && sys.loop.Collecting? && sys.loop.todo != [] && sys.loop.todo[0] == pid && pid in sys.spies
    && !CanCollect(sys.spies[pid])
  }

  /** How many more steps of its worker the loop waits for at most. */
  function StepsAway(s: Spy): nat {
    if CanCollect(s) then 0
    else match s.worker
      case Leaving(open) => CountOpen(open)
      case Busy(_) => 4
      case _ => 5
  }

  ghost predicate ServesOrSpares(sys: System, step: Step, pid: Pid)
    requires Enabled(sys, step) && pid in sys.spies
  {
    var after := Take(sys, step);
    && after.loop == sys.loop && pid in after.spies
    && if step.Work? && step.pid == pid then StepsAway(after.spies[pid]) < StepsAway(sys.spies[pid])
       else after.spies[pid] == sys.spies[pid]
  }

  /** Whatever the worker of a notified spy without a sample does brings one nearer,
      and there is something it can do. */
  lemma WorkerServes(s: Spy, tick: nat)
    requires SpyOk(s, tick) && !CanCollect(s)
    ensures CanAct(s, Takes) || CanAct(s, Answers) || CanAct(s, Drops(Samples))
    ensures forall action | CanAct(s, action) :: StepsAway(Act(s, action)) < StepsAway(s)
  {
    forall action | CanAct(s, action) ensures StepsAway(Act(s, action)) < StepsAway(s) {
      WorkerKeepsSpy(s, action, tick);
    }
  }

  /** A blocked loop waits for a worker that can act, and whatever that worker does
      brings it one step nearer; nothing else touches the spy waited for. */
  lemma BlockedLoopIsServed(sys: System, pid: Pid)
    requires Inv(sys) && BlockedOn(sys, pid)
    ensures || Enabled(sys, Work(pid, Takes)) || Enabled(sys, Work(pid, Answers))
            || Enabled(sys, Work(pid, Drops(Samples)))
    ensures forall step | Enabled(sys, step) :: ServesOrSpares(sys, step, pid)
  {
    hide SpyOk, CanAct, Act, CanCollect, StepsAway, DeliveriesOk, LoopOk;
    WorkerServes(sys.spies[pid], sys.tick);
  }

  lemma {:induction false} SomeOrder(keys: set<Pid>) returns (order: seq<Pid>)
    ensures Enumerates(order, keys)
    decreases |keys|
  {
    if |keys| == 0 {
      order := [];
    } else {
      var pid :| pid in keys;
      var rest := SomeOrder(keys - {pid});
      order := [pid] + rest;
    }
  }

  predicate IsLoopStep(step: Step) {
    !step.Work? && !step.AddSpy? && !step.WaitFor?
  }

  /** Until it stops, the loop can always take its next step, or waits for a sample. */
  lemma LoopGoesOn(sys: System) returns (step: Step)
    requires Inv(sys) && !sys.loop.Stopped?
    ensures (IsLoopStep(step) && Enabled(sys, step)) || exists pid :: BlockedOn(sys, pid)
  {
    hide SpyOk, DeliveriesOk, CanCollect, AskedAreSettled;
    var order := SomeOrder(sys.spies.Keys);
    match sys.loop
    case SettingUp => step := StartSampling;
    case Idle => step := BeginTick(order);
    case Notifying(todo) =>
      assert todo != [] ==> todo[0] in todo;
      step := if todo == [] then BeginCollecting(order) else NotifyNext;
    case Collecting(todo) =>
      assert todo != [] ==> todo[0] in todo;
      step := if todo == [] then EndTick(false) else CollectNext;
      if todo != [] && !CanCollect(sys.spies[todo[0]]) {
        assert BlockedOn(sys, todo[0]);
      }
  }

  function WorkOf(pid: Pid, steps: seq<Step>): nat {
    if steps == [] then 0 else (if steps[0].Work? && steps[0].pid == pid then 1 else 0) + WorkOf(pid, steps[1..])
  }

  ghost predicate BlockedThroughout(sys: System, steps: seq<Step>, pid: Pid)
    requires IsRun(sys, steps)
    decreases |steps|
  {
    BlockedOn(sys, pid) && (steps == [] || BlockedThroughout(Take(sys, steps[0]), steps[1..], pid))
  }

  /** So the loop cannot stay blocked while its worker takes five steps, however the
      other threads are scheduled. */
  lemma {:induction false} WaitIsShort(sys: System, steps: seq<Step>, pid: Pid)
    requires Inv(sys) && IsRun(sys, steps) && BlockedThroughout(sys, steps, pid)
    ensures WorkOf(pid, steps) < StepsAway(sys.spies[pid]) <= 5
    decreases |steps|
  {
    if steps != [] {
      BlockedLoopIsServed(sys, pid);
      assert ServesOrSpares(sys, steps[0], pid);
      StepKeepsInv(sys, steps[0]);
      WaitIsShort(Take(sys, steps[0]), steps[1..], pid);
    }
  }

  // ----- the spy, as an object -----

  class SmalltalkSpyThread {
    var initialized: Option<Status>
    var running: bool
    var notified: bool
    // what is in the three channels, and the thread at their other ends
    var initializedRx: seq<Status>
    var notifyTx: seq<nat>
    var sampleRx: seq<nat>
    var worker: Worker

    function State(): Spy
      reads this
    {
      Spy(initialized, running, notified, initializedRx, notifyTx, sampleRx, worker)
    }

    constructor ()
      ensures State() == NEW_SPY
    {
      initialized, running, notified := None, false, false;
      initializedRx, notifyTx, sampleRx, worker := [], [], [], Starting;
    }

    /** Whoever waits learns the status if one was sent; a spy that is not ready
        afterwards has lost its worker. */
    method AwaitInitialized(ghost tick: nat) returns (ready: bool)
      requires SpyOk(State(), tick) && CanWait(State())
      modifies this
      ensures SpyOk(State(), tick)
      ensures (State(), ready) == WaitInitialized(old(State()))
      ensures initializedRx == []
      ensures old(initialized).Some? || old(initializedRx) != [] <==> initialized.Some?
      ensures ready ==> running && old(initialized).None? && initialized == Some(Started)
      ensures !ready ==> worker.Leaving?
      ensures notified == old(notified) && worker == old(worker)
    {
      ghost var before := State();
      WaitKeepsSpy(before, tick);
      if initializedRx != [] {
        var status := initializedRx[0];
        initializedRx := initializedRx[1..];
        running := status == Started;
        initialized := Some(status);
        ready := running;
      } else {
        ready := false;
      }
    }

    /** A spy is ready exactly when it is known to have started; a status that has been
        sent is known from then on, and a status once known is not looked for.  Without
        one the worker has not started yet, or died before it could say so. */
    method CheckInitialized(ghost tick: nat) returns (ready: bool)
      requires SpyOk(State(), tick)
      modifies this
      ensures SpyOk(State(), tick)
      ensures (State(), ready) == Initialized(old(State()))
      ensures ready <==> initialized == Some(Started)
      ensures initializedRx == []
      ensures old(initialized).Some? || old(initializedRx) != [] <==> initialized.Some?
      ensures initialized.None? ==> worker.Starting? || worker.Leaving?
      ensures old(initialized).Some? ==> State() == old(State())
      ensures notified == old(notified) && worker == old(worker)
    {
      ghost var before := State();
      InitializedKeepsSpy(before, tick);
      if initialized.Some? {
        return initialized.value == Started;
      }
      if initializedRx != [] {
        var status := initializedRx[0];
        initializedRx := initializedRx[1..];
        running := status == Started;
        initialized := Some(status);
        return running;
      }
      ready := false;
    }

    /** The spy counts as notified exactly when its worker can still receive; then, if
        the worker reads on, this notification is the only message under way. */
    method SendNotification(tick: nat)
      requires SpyOk(State(), tick) && initialized == Some(Started) && !notified
      modifies this
      ensures SpyOk(State(), tick)
      ensures State() == Notify(old(State()), tick)
      ensures notified <==> Holds(State(), Requests)
      ensures !worker.Leaving? ==> notified && InFlight(State()) == [tick]
      ensures !notified ==> worker.Leaving? && !running
      ensures worker == old(worker)
    {
      ghost var before := State();
      NotifyKeepsSpy(before, tick);
      if !Holds(State(), Requests) {
        running := false;
      } else {
        notifyTx := notifyTx + [tick];
        notified := true;
      }
    }

    /** A sample answers the notification of this tick; a notified spy that gives
        none has lost its worker; afterwards nothing is under way. */
    method CollectSample(ghost tick: nat) returns (sample: Option<nat>)
      requires SpyOk(State(), tick) && CanCollect(State())
      modifies this
      ensures SpyOk(State(), tick)
      ensures (State(), sample) == Collect(old(State()))
      ensures sample.Some? ==> old(notified) && sample.value == tick
      ensures old(notified) && sample.None? ==> worker.Leaving? && !running
      ensures !notified && InFlight(State()) == []
      ensures !old(notified) ==> State() == old(State())
      ensures worker == old(worker)
    {
      ghost var before := State();
      CollectKeepsSpy(before, tick);
      if !notified {
        return None;
      }
      notified := false;
      if sampleRx != [] {
        sample := Some(sampleRx[0]);
        sampleRx := sampleRx[1..];
      } else {
        running := false;
        sample := None;
      }
    }
  }
}
