/** The worker's lane scheduler: single flight per lane, and what its stop waits for, over every
    interleaving of starts, timer ticks, completions, wake-ups and stops. Of the two waits of a
    stop, the timeout bounds the second; nothing bounds the wait for the wake listener.

    A job is `Running` until its lane function settles (by success or failure), `Settled` until
    the bookkeeping chained behind it runs, and `Cleared` afterwards. */
module WorkerScheduler {
  import opened Results

  datatype Phase = Running | Settled | Cleared

  datatype Job = Job(lane: string, phase: Phase)

  /** The first `stop()`: waiting for the wake listener, racing the pending jobs against the
      timeout, or over. */
  datatype StopPhase = NotCalled | AwaitingListener | Racing(pending: set<nat>) | Resolved(drained: bool) | Rejected

  /** `answers` are the values calls of `stop()` have resolved with, in order; `wakes` the lane
      bodies started by database notifications, beside the scheduler. */
  datatype Sched = Sched(
    lanes: seq<string>, inFlight: map<string, nat>, jobs: seq<Job>, timers: seq<string>,
    started: bool, stopping: bool, stop: StopPhase, answers: seq<bool>, wakes: seq<Job>)

  function Fresh(lanes: seq<string>): Sched {
    Sched(lanes, map[], [], [], false, false, NotCalled, [], [])
  }

  /** `run(name)`. */
  function RunLane(s: Sched, name: string): Sched {
    if s.stopping || name in s.inFlight || name !in s.lanes then s
    else s.(jobs := s.jobs + [Job(name, Running)], inFlight := s.inFlight[name := |s.jobs|])
  }

  /** Run each lane once and arm its timer, in key order. */
  function StartLanes(s: Sched, names: seq<string>): Sched {
    if names == [] then s
    else
      var name := names[|names| - 1];
      var t := RunLane(StartLanes(s, names[..|names| - 1]), name);
      t.(timers := t.timers + [name])
  }

  lemma StartLanesStep(s: Sched, names: seq<string>, i: nat)
    requires i < |names|
    ensures StartLanes(s, names[..i + 1])
            == var t := RunLane(StartLanes(s, names[..i]), names[i]); t.(timers := t.timers + [names[i]])
  {
    hide RunLane;
    assert names[..i + 1][..i] == names[..i];
  }

  function Start(s: Sched): Sched {
    if s.stopping || s.started then s else StartLanes(s.(started := true), s.lanes)
  }

  function Settle(s: Sched, id: nat): Sched
    requires id < |s.jobs|
  {
    s.(jobs := s.jobs[id := s.jobs[id].(phase := Settled)])
  }

  function Clear(s: Sched, id: nat): Sched
    requires id < |s.jobs|
  {
    var lane := s.jobs[id].lane;
    var cleared := s.(jobs := s.jobs[id := s.jobs[id].(phase := Cleared)]);
    if lane in s.inFlight && s.inFlight[lane] == id then cleared.(inFlight := s.inFlight - {lane}) else cleared
  }

  /** The first call waits for the listener; any later one answers true at once. */
  function CallStop(s: Sched): Sched {
    if s.stopping then s.(answers := s.answers + [true]) else s.(stopping := true, stop := AwaitingListener)
  }

  /** The first call of `stop()` answers. */
  function Resolve(s: Sched, drained: bool): Sched {
    s.(stop := Resolved(drained), answers := s.answers + [drained])
  }

  function ListenerStopped(s: Sched): Sched {
    var cleared := s.(timers := []);
    if s.inFlight.Values == {} then Resolve(cleared, true) else cleared.(stop := Racing(s.inFlight.Values))
  }

  predicate AllSettled(s: Sched, ids: set<nat>) {
    forall id | id in ids :: id < |s.jobs| && s.jobs[id].phase != Running
  }

  datatype Event =
    | StartCalled | Tick(name: string) | JobSettles(id: nat) | JobClears(id: nat)
    | StopCalled | ListenerStops | ListenerFails | PendingSettled | TimedOut
    | WakeFires(lane: string) | WakeSettles(i: nat)

  /** The wake listener is started with the scheduler and has not been stopped for good. */
  predicate Listening(s: Sched) {
    s.started && (s.stop.NotCalled? || s.stop.AwaitingListener? || s.stop.Rejected?)
  }

  /** When an event can happen: timers fire while armed, promises settle once, the race is won or
      times out, and database notifications arrive while someone listens. */
  predicate Enabled(s: Sched, e: Event) {
    match e
    case StartCalled => true
    case Tick(name) => name in s.timers
    case JobSettles(id) => id < |s.jobs| && s.jobs[id].phase == Running
    case JobClears(id) => id < |s.jobs| && s.jobs[id].phase == Settled
    case StopCalled => true
    case ListenerStops => s.stop == AwaitingListener
    case ListenerFails => s.stop == AwaitingListener
    case PendingSettled => s.stop.Racing? && AllSettled(s, s.stop.pending)
    case TimedOut => s.stop.Racing?
    case WakeFires(_) => Listening(s)
    case WakeSettles(i) => i < |s.wakes| && s.wakes[i].phase == Running
  }

  function Next(s: Sched, e: Event): Sched
    requires Enabled(s, e)
  {
    match e
    case StartCalled => Start(s)
    case Tick(name) => RunLane(s, name)
    case JobSettles(id) => Settle(s, id)
    case JobClears(id) => Clear(s, id)
    case StopCalled => CallStop(s)
    case ListenerStops => ListenerStopped(s)
    case ListenerFails => s.(stop := Rejected)
    case PendingSettled => Resolve(s, true)
    case TimedOut => Resolve(s, false)
    case WakeFires(lane) => s.(wakes := s.wakes + [Job(lane, Running)])
    case WakeSettles(i) => s.(wakes := s.wakes[i := s.wakes[i].(phase := Settled)])
  }

  ghost predicate IsRun(states: seq<Sched>, events: seq<Event>) {
    && |states| == |events| + 1
    && forall k | 0 <= k < |events| :: Enabled(states[k], events[k]) && states[k + 1] == Next(states[k], events[k])
  }

  // ----- Single flight

  predicate Live(s: Sched, id: nat) {
    id < |s.jobs| && s.jobs[id].phase != Cleared
  }

  /** The map of jobs in flight is exactly the jobs not yet cleared, one a lane. */
  ghost predicate Tracked(s: Sched) {
    && (forall name | name in s.inFlight :: Live(s, s.inFlight[name]) && s.jobs[s.inFlight[name]].lane == name)
    && (forall id: nat | Live(s, id) :: s.jobs[id].lane in s.inFlight && s.inFlight[s.jobs[id].lane] == id)
  }

  /** A stop that has taken its snapshot has every running job in it. */
  ghost predicate StopInvariant(s: Sched) {
    && (s.stopping <==> s.stop != NotCalled)
    && (s.stop.Racing? ==>
          && (forall id | id in s.stop.pending :: id < |s.jobs|)
          && (forall id: nat | id < |s.jobs| && s.jobs[id].phase == Running :: id in s.stop.pending))
    && (s.stop == Resolved(true) ==> forall id: nat | id < |s.jobs| :: s.jobs[id].phase != Running)
  }

  ghost predicate Invariant(s: Sched) {
    Tracked(s) && StopInvariant(s)
  }

  lemma RunLaneKeeps(s: Sched, name: string)
    requires Invariant(s)
    ensures Invariant(RunLane(s, name)) && RunLane(s, name).stopping == s.stopping && RunLane(s, name).lanes == s.lanes
  {
    var t := RunLane(s, name);
    if t != s {
      forall id: nat | Live(t, id) ensures t.jobs[id].lane in t.inFlight && t.inFlight[t.jobs[id].lane] == id {
        if id < |s.jobs| {
          assert Live(s, id);
        }
      }
      forall n | n in t.inFlight ensures Live(t, t.inFlight[n]) && t.jobs[t.inFlight[n]].lane == n {
        if n != name {
          assert Live(s, s.inFlight[n]);
        }
      }
    }
  }

  lemma {:induction false} StartLanesKeeps(s: Sched, names: seq<string>)
    requires Invariant(s)
    ensures Invariant(StartLanes(s, names)) && StartLanes(s, names).stopping == s.stopping
  {
    if names != [] {
      var init := StartLanes(s, names[..|names| - 1]);
      StartLanesKeeps(s, names[..|names| - 1]);
      RunLaneKeeps(init, names[|names| - 1]);
      var t := RunLane(init, names[|names| - 1]);
      assert forall id: nat :: Live(StartLanes(s, names), id) <==> Live(t, id);
    }
  }

  lemma ClearKeeps(s: Sched, id: nat)
    requires Invariant(s) && id < |s.jobs| && s.jobs[id].phase == Settled
    ensures Invariant(Clear(s, id))
  {
    var t := Clear(s, id);
    assert Live(s, id);
    forall j: nat | Live(t, j) ensures t.jobs[j].lane in t.inFlight && t.inFlight[t.jobs[j].lane] == j {
      assert Live(s, j) && j != id;
    }
    forall n | n in t.inFlight ensures Live(t, t.inFlight[n]) && t.jobs[t.inFlight[n]].lane == n {
      assert Live(s, s.inFlight[n]);
    }
  }

  lemma SettleKeeps(s: Sched, id: nat)
    requires Invariant(s) && id < |s.jobs| && s.jobs[id].phase == Running
    ensures Invariant(Settle(s, id))
  {
    var t := Settle(s, id);
    assert forall j: nat :: Live(t, j) <==> Live(s, j);
  }

  lemma StopKeeps(s: Sched, e: Event)
    requires Invariant(s) && Enabled(s, e)
    requires !e.StartCalled? && !e.Tick? && !e.JobSettles? && !e.JobClears?
    ensures Invariant(Next(s, e))
  {
    var t := Next(s, e);
    assert forall j: nat :: Live(t, j) <==> Live(s, j);
    if e.ListenerStops? {
      forall id: nat | id < |s.jobs| && s.jobs[id].phase == Running ensures id in s.inFlight.Values {
        assert Live(s, id);
        assert s.jobs[id].lane in s.inFlight;
      }
    }
  }

  lemma StepKeepsInvariant(s: Sched, e: Event)
    requires Invariant(s) && Enabled(s, e)
    ensures Invariant(Next(s, e))
  {
    match e
    case StartCalled =>
      if !s.stopping && !s.started {
        var begun := s.(started := true);
        assert forall j: nat :: Live(begun, j) <==> Live(s, j);
        StartLanesKeeps(begun, s.lanes);
      }
    case Tick(name) => RunLaneKeeps(s, name);
    case JobSettles(id) => SettleKeeps(s, id);
    case JobClears(id) => ClearKeeps(s, id);
    case _ => StopKeeps(s, e);
  }

  lemma {:induction false} RunKeepsInvariant(lanes: seq<string>, states: seq<Sched>, events: seq<Event>, n: nat)
    requires IsRun(states, events) && states[0] == Fresh(lanes) && n < |states|
    ensures Invariant(states[n])
  {
    if n > 0 {
      RunKeepsInvariant(lanes, states, events, n - 1);
      StepKeepsInvariant(states[n - 1], events[n - 1]);
    }
  }

  /** Over every interleaving, a lane has at most one scheduled body, its bookkeeping included. */
  lemma SingleFlight(lanes: seq<string>, states: seq<Sched>, events: seq<Event>, n: nat, i: nat, j: nat)
    requires IsRun(states, events) && states[0] == Fresh(lanes) && n < |states|
    requires Live(states[n], i) && Live(states[n], j) && states[n].jobs[i].lane == states[n].jobs[j].lane
    ensures i == j
  {
    RunKeepsInvariant(lanes, states, events, n);
  }

  /** A tick begins a body exactly when the scheduler is not stopping and the lane has none, its
      bookkeeping included. */
  lemma TickBeginsIff(lanes: seq<string>, states: seq<Sched>, events: seq<Event>, n: nat, name: string)
    requires IsRun(states, events) && states[0] == Fresh(lanes) && n < |events| && events[n] == Tick(name)
    ensures var s, t := states[n], states[n + 1];
            if !s.stopping && name in s.lanes && (forall id: nat | Live(s, id) :: s.jobs[id].lane != name)
            then t.jobs == s.jobs + [Job(name, Running)]
            else t == s
  {
    RunKeepsInvariant(lanes, states, events, n);
    var s := states[n];
    if name in s.inFlight {
      assert Live(s, s.inFlight[name]);
    }
  }

  lemma RunLaneBegins(s: Sched, name: string)
    requires !s.stopping && name in s.lanes
    ensures var t := RunLane(s, name);
            && t.timers == s.timers && t.lanes == s.lanes && !t.stopping && t.started == s.started
            && t.inFlight.Keys == s.inFlight.Keys + {name}
  {
  }

  lemma {:induction false} StartLanesBegins(s: Sched, names: seq<string>)
    requires !s.stopping && forall i | 0 <= i < |names| :: names[i] in s.lanes
    ensures var t := StartLanes(s, names);
            && t.timers == s.timers + names && t.lanes == s.lanes && !t.stopping && t.started == s.started
            && s.inFlight.Keys <= t.inFlight.Keys && forall i | 0 <= i < |names| :: names[i] in t.inFlight.Keys
  {
    if names != [] {
      hide RunLane;
      var init, last := names[..|names| - 1], names[|names| - 1];
      StartLanesBegins(s, init);
      RunLaneBegins(StartLanes(s, init), last);
      assert names == init + [last];
    }
  }

  /** The first start leaves every lane with a body in flight and a timer, in key order. */
  lemma StartBeginsEveryLane(s: Sched)
    requires Invariant(s) && !s.stopping && !s.started && s.timers == []
    ensures var t := Start(s);
            && t.started && t.timers == s.lanes == t.lanes
            && forall i | 0 <= i < |s.lanes| :: s.lanes[i] in t.inFlight && Live(t, t.inFlight[s.lanes[i]])
  {
    var begun := s.(started := true);
    assert forall id: nat :: Live(begun, id) <==> Live(s, id);
    assert Invariant(begun);
    hide StartLanes, Invariant, Live;
    StartLanesBegins(begun, s.lanes);
    StartLanesKeeps(begun, s.lanes);
    forall i | 0 <= i < |s.lanes|
      ensures s.lanes[i] in Start(s).inFlight && Live(Start(s), Start(s).inFlight[s.lanes[i]])
    {
      InFlightIsLive(Start(s), s.lanes[i]);
    }
  }

  lemma InFlightIsLive(s: Sched, name: string)
    requires Invariant(s) && name in s.inFlight.Keys
    ensures name in s.inFlight && Live(s, s.inFlight[name])
  {
  }

  // ----- Stop

  lemma {:induction false} StoppingIsForever(states: seq<Sched>, events: seq<Event>, m: nat, n: nat)
    requires IsRun(states, events) && m <= n < |states| && states[m].stopping
    ensures states[n].stopping && |states[n].jobs| == |states[m].jobs|
    ensures states[m].stop.Resolved? ==> states[n].stop == states[m].stop
  {
    if m < n {
      StoppingIsForever(states, events, m, n - 1);
    }
  }

  /** No job begins once stop has been called, whatever ticks or starts are still queued. */
  lemma NothingBeginsAfterStop(states: seq<Sched>, events: seq<Event>, m: nat, n: nat)
    requires IsRun(states, events) && m < n < |states| && events[m] == StopCalled
    ensures |states[n].jobs| == |states[m].jobs|
    ensures forall id | 0 <= id < |states[m].jobs| :: states[n].jobs[id].lane == states[m].jobs[id].lane
  {
    assert states[m + 1] == CallStop(states[m]);
    StoppingIsForever(states, events, m + 1, n);
    LanesStay(states, events, m, n);
  }

  lemma {:induction false} StartLanesExtends(s: Sched, names: seq<string>)
    ensures |StartLanes(s, names).jobs| >= |s.jobs| && StartLanes(s, names).jobs[..|s.jobs|] == s.jobs
    ensures StartLanes(s, names).stop == s.stop && StartLanes(s, names).stopping == s.stopping
    ensures StartLanes(s, names).started == s.started
    ensures StartLanes(s, names).wakes == s.wakes && StartLanes(s, names).answers == s.answers
    ensures forall id | |s.jobs| <= id < |StartLanes(s, names).jobs| :: StartLanes(s, names).jobs[id].phase == Running
  {
    if names != [] {
      StartLanesExtends(s, names[..|names| - 1]);
    }
  }

  predicate SameLanes(s: Sched, t: Sched) {
    |s.jobs| <= |t.jobs| && forall id | 0 <= id < |s.jobs| :: t.jobs[id].lane == s.jobs[id].lane
  }

  lemma StepKeepsLanes(s: Sched, e: Event)
    requires Enabled(s, e)
    ensures SameLanes(s, Next(s, e))
  {
    if e.StartCalled? && !s.stopping && !s.started {
      StartLanesExtends(s.(started := true), s.lanes);
      assert forall id | 0 <= id < |s.jobs| :: Start(s).jobs[..|s.jobs|][id] == s.jobs[id];
    }
  }

  lemma {:induction false} LanesStay(states: seq<Sched>, events: seq<Event>, m: nat, n: nat)
    requires IsRun(states, events) && m <= n < |states|
    ensures SameLanes(states[m], states[n])
  {
    hide Next, Enabled;
    if m < n {
      LanesStay(states, events, m, n - 1);
      StepKeepsLanes(states[n - 1], events[n - 1]);
    }
  }

  /** The wake listener stopped with nothing in flight, or every pending job settled in time. */
  ghost predicate Drained(states: seq<Sched>, events: seq<Event>, n: nat)
    requires n <= |events| < |states|
  {
    || PendingSettled in events[..n]
    || exists k :: 0 <= k < n && events[k] == ListenerStops && states[k].inFlight.Values == {}
  }

  lemma DrainedStep(states: seq<Sched>, events: seq<Event>, n: nat)
    requires n < |events| < |states|
    ensures Drained(states, events, n + 1) <==>
            || Drained(states, events, n) || events[n] == PendingSettled
            || (events[n] == ListenerStops && states[n].inFlight.Values == {})
  {
    assert events[..n + 1] == events[..n] + [events[n]];
  }

  /** How one step moves the first `stop()` on. */
  lemma StepKeepsOutcome(s: Sched, e: Event)
    requires Invariant(s) && Enabled(s, e)
    ensures var t := Next(s, e);
            && (t.stop.NotCalled? <==> s.stop.NotCalled? && e != StopCalled)
            && (t.stop.Rejected? <==> s.stop.Rejected? || e == ListenerFails)
            && (t.stop == Resolved(false) <==> s.stop == Resolved(false) || e == TimedOut)
            && (t.stop == Resolved(true) <==>
                || s.stop == Resolved(true) || e == PendingSettled
                || (e == ListenerStops && s.inFlight.Values == {}))
  {
    if e.StartCalled? && !s.stopping && !s.started {
      StartLanesExtends(s.(started := true), s.lanes);
    }
  }

  /** What became of the first `stop()`, read off the events: it rejects exactly when stopping the
      wake listener failed, and answers false exactly when the timeout came first. */
  lemma {:induction false} StopOutcomeIff(lanes: seq<string>, states: seq<Sched>, events: seq<Event>, n: nat)
    requires IsRun(states, events) && states[0] == Fresh(lanes) && n < |states|
    ensures var stop := states[n].stop;
            && (stop.NotCalled? <==> StopCalled !in events[..n])
            && (stop.Rejected? <==> ListenerFails in events[..n])
            && (stop == Resolved(false) <==> TimedOut in events[..n])
            && (stop == Resolved(true) <==> Drained(states, events, n))
  {
    hide Next, Enabled, Invariant;
    if n > 0 {
      hide Drained;
      StopOutcomeIff(lanes, states, events, n - 1);
      RunKeepsInvariant(lanes, states, events, n - 1);
      assert events[..n] == events[..n - 1] + [events[n - 1]];
      StepKeepsOutcome(states[n - 1], events[n - 1]);
      DrainedStep(states, events, n - 1);
    }
  }

  lemma StepKeepsTimers(s: Sched, e: Event)
    requires Enabled(s, e) && s.stopping
    ensures Next(s, e).timers == if e == ListenerStops then [] else s.timers
  {
  }

  /** Once stopping, the timers are the ones armed at that moment until the listener stops, and none
      from then on. */
  lemma {:induction false} TimersWhileStopping(states: seq<Sched>, events: seq<Event>, m: nat, n: nat)
    requires IsRun(states, events) && m <= n < |states| && states[m].stopping
    ensures states[n].timers == if ListenerStops in events[m..n] then [] else states[m].timers
  {
    if m < n {
      hide Next, Enabled;
      TimersWhileStopping(states, events, m, n - 1);
      StoppingIsForever(states, events, m, n - 1);
      StepKeepsTimers(states[n - 1], events[n - 1]);
      assert events[m..n] == events[m..n - 1] + [events[n - 1]];
    }
  }

  lemma AwaitedListener(lanes: seq<string>, states: seq<Sched>, events: seq<Event>, m: nat)
    requires IsRun(states, events) && states[0] == Fresh(lanes)
    requires m < |events| && (events[m] == ListenerStops || events[m] == ListenerFails)
    ensures states[m].stopping && states[m].stop == AwaitingListener
  {
    RunKeepsInvariant(lanes, states, events, m);
  }

  /** From the moment the wake listener has stopped no timer is armed again. */
  lemma TimersStayCleared(lanes: seq<string>, states: seq<Sched>, events: seq<Event>, m: nat, n: nat)
    requires IsRun(states, events) && states[0] == Fresh(lanes) && m < n < |states| && events[m] == ListenerStops
    ensures states[n].timers == []
  {
    AwaitedListener(lanes, states, events, m);
    TimersWhileStopping(states, events, m, n);
    assert events[m..n][0] == ListenerStops;
  }

  /** After a rejected `stop()` the timers stay armed for good. */
  lemma RejectedKeepsTimers(lanes: seq<string>, states: seq<Sched>, events: seq<Event>, m: nat, n: nat)
    requires IsRun(states, events) && states[0] == Fresh(lanes) && m < n < |states| && events[m] == ListenerFails
    ensures states[n].timers == states[m].timers && states[n].stop == Rejected
  {
    hide Next, Drained;
    AwaitedListener(lanes, states, events, m);
    TimersWhileStopping(states, events, m, n);
    forall k | m < k <= n ensures states[k].stop == Rejected {
      StopOutcomeIff(lanes, states, events, k);
      assert events[..k][m] == ListenerFails;
    }
    assert forall k | m <= k < n :: Enabled(states[k], events[k]);
    assert forall k | m <= k < n :: events[k] != ListenerStops;
  }

  /** The answers of `stop()`, read off the events: a repeated call answers true at once; the first
      one true when the listener stops with nothing in flight or every pending job has settled, and
      false when the timeout comes first. */
  function Answered(states: seq<Sched>, events: seq<Event>, n: nat): (answers: seq<bool>)
    requires n <= |events| < |states|
  {
    if n == 0 then []
    else
      Answered(states, events, n - 1)
      + match events[n - 1]
        case StopCalled => if StopCalled in events[..n - 1] then [true] else []
        case ListenerStops => if states[n - 1].inFlight == map[] then [true] else []
        case PendingSettled => [true]
        case TimedOut => [false]
        case _ => []
  }

  lemma NothingInFlight(m: map<string, nat>)
    ensures m.Values == {} <==> m == map[]
  {
    assert forall name | name in m :: m[name] in m.Values;
  }

  predicate AllBodiesOver(s: Sched) {
    forall id | 0 <= id < |s.jobs| :: s.jobs[id].phase != Running
  }

  lemma StepAnswers(s: Sched, e: Event)
    requires Invariant(s) && Enabled(s, e)
    ensures Next(s, e).answers == s.answers + match e
                                              case StopCalled => if s.stop.NotCalled? then [] else [true]
                                              case ListenerStops => if s.inFlight == map[] then [true] else []
                                              case PendingSettled => [true]
                                              case TimedOut => [false]
                                              case _ => []
  {
    if e.StartCalled? && !s.stopping && !s.started {
      StartLanesExtends(s.(started := true), s.lanes);
    }
    NothingInFlight(s.inFlight);
  }

  /** What callers of `stop()` are told is what the events say, over every run. */
  lemma {:induction false} AnswersByEvents(lanes: seq<string>, states: seq<Sched>, events: seq<Event>, n: nat)
    requires IsRun(states, events) && states[0] == Fresh(lanes) && n < |states|
    ensures states[n].answers == Answered(states, events, n)
  {
    hide Next, Enabled, Invariant;
    if n > 0 {
      AnswersByEvents(lanes, states, events, n - 1);
      RunKeepsInvariant(lanes, states, events, n - 1);
      StopOutcomeIff(lanes, states, events, n - 1);
      StepAnswers(states[n - 1], events[n - 1]);
    }
  }

  lemma {:induction false} FalseMeansTimeout(states: seq<Sched>, events: seq<Event>, n: nat)
    requires n <= |events| < |states|
    ensures false in Answered(states, events, n) <==> TimedOut in events[..n]
  {
    if n > 0 {
      FalseMeansTimeout(states, events, n - 1);
      assert events[..n] == events[..n - 1] + [events[n - 1]];
    }
  }

  lemma TrueMeansOver(s: Sched)
    requires Invariant(s) && s.stop == Resolved(true)
    ensures AllBodiesOver(s)
  {
  }

  /** `stop()` has told a caller false exactly when the timeout came before every pending job had
      settled. The step that ends the first `stop()` is the one
      that answers it, truly only with every scheduled body over. */
  lemma FirstAnswer(lanes: seq<string>, states: seq<Sched>, events: seq<Event>, n: nat)
    requires IsRun(states, events) && states[0] == Fresh(lanes) && n < |events|
    ensures false in states[n].answers <==> TimedOut in events[..n]
    ensures !states[n].stop.Resolved? && states[n + 1].stop.Resolved? ==>
              var answer := states[n + 1].stop.drained;
              && states[n + 1].answers == states[n].answers + [answer]
              && (answer <==> events[n] == PendingSettled
                              || (events[n] == ListenerStops && states[n].inFlight == map[]))
              && (answer ==> AllBodiesOver(states[n + 1]))
  {
    AnswersByEvents(lanes, states, events, n);
    FalseMeansTimeout(states, events, n);
    RunKeepsInvariant(lanes, states, events, n);
    RunKeepsInvariant(lanes, states, events, n + 1);
    StepAnswers(states[n], events[n]);
    StepKeepsOutcome(states[n], events[n]);
    assert states[n + 1] == Next(states[n], events[n]);
    hide Answered, Enabled, Invariant;
    NothingInFlight(states[n].inFlight);
    if states[n + 1].stop == Resolved(true) {
      TrueMeansOver(states[n + 1]);
    }
  }

  /** A first `stop()` that resolved true did so with every scheduled body over, and it stays so. */
  lemma DrainedMeansDrained(lanes: seq<string>, states: seq<Sched>, events: seq<Event>, m: nat, n: nat, id: nat)
    requires IsRun(states, events) && states[0] == Fresh(lanes) && m <= n < |states|
    requires states[m].stop == Resolved(true) && id < |states[n].jobs|
    ensures states[n].jobs[id].phase != Running
  {
    RunKeepsInvariant(lanes, states, events, m);
    StoppingIsForever(states, events, m, n);
    RunKeepsInvariant(lanes, states, events, n);
  }

  // ----- What still runs when `stop()` answers

  function Fired(past: seq<Event>): nat {
    if past == [] then 0 else Fired(past[..|past| - 1]) + if past[|past| - 1].WakeFires? then 1 else 0
  }

  /** Which scheduled bodies run, read off the events alone. */
  ghost predicate JobsByEvents(s: Sched, past: seq<Event>) {
    && (forall id: nat | JobSettles(id) in past :: id < |s.jobs|)
    && (forall id: nat | id < |s.jobs| :: s.jobs[id].phase == Running <==> JobSettles(id) !in past)
  }

  /** Which woken bodies run, read off the events alone. */
  ghost predicate WakesByEvents(s: Sched, past: seq<Event>) {
    && |s.wakes| == Fired(past)
    && (forall i: nat | WakeSettles(i) in past :: i < |s.wakes|)
    && (forall i: nat | i < |s.wakes| :: s.wakes[i].phase == Running <==> WakeSettles(i) !in past)
  }

  ghost predicate RunningByEvents(s: Sched, past: seq<Event>) {
    JobsByEvents(s, past) && WakesByEvents(s, past)
  }

  lemma PastOne(past: seq<Event>, e: Event)
    ensures forall x :: x in past + [e] <==> x in past || x == e
    ensures Fired(past + [e]) == Fired(past) + if e.WakeFires? then 1 else 0
  {
    assert (past + [e])[..|past|] == past;
  }

  lemma StartKeepsRunningByEvents(s: Sched, past: seq<Event>)
    requires RunningByEvents(s, past)
    ensures RunningByEvents(Start(s), past + [StartCalled])
  {
    PastOne(past, StartCalled);
    if !s.stopping && !s.started {
      StartLanesExtends(s.(started := true), s.lanes);
      hide StartLanes, Fired;
      var t := Start(s);
      forall id: nat | id < |t.jobs| ensures t.jobs[id].phase == Running <==> JobSettles(id) !in past + [StartCalled] {
        assert id < |s.jobs| ==> t.jobs[..|s.jobs|][id] == s.jobs[id];
      }
    }
  }

  lemma StepKeepsJobsByEvents(s: Sched, e: Event, past: seq<Event>)
    requires Enabled(s, e) && !e.StartCalled? && JobsByEvents(s, past)
    ensures JobsByEvents(Next(s, e), past + [e])
  {
    PastOne(past, e);
    hide Fired;
  }

  lemma StepKeepsWakesByEvents(s: Sched, e: Event, past: seq<Event>)
    requires Enabled(s, e) && !e.StartCalled? && WakesByEvents(s, past)
    ensures WakesByEvents(Next(s, e), past + [e])
  {
    PastOne(past, e);
    hide Fired;
  }

  lemma StepKeepsRunningByEvents(s: Sched, e: Event, past: seq<Event>)
    requires Enabled(s, e) && RunningByEvents(s, past)
    ensures RunningByEvents(Next(s, e), past + [e])
  {
    hide JobsByEvents, WakesByEvents, Fired, Start;
    if e.StartCalled? {
      StartKeepsRunningByEvents(s, past);
    } else {
      StepKeepsJobsByEvents(s, e, past);
      StepKeepsWakesByEvents(s, e, past);
    }
  }

  lemma {:induction false} RunKeepsRunningByEvents(lanes: seq<string>, states: seq<Sched>, events: seq<Event>, n: nat)
    requires IsRun(states, events) && states[0] == Fresh(lanes) && n < |states|
    ensures RunningByEvents(states[n], events[..n])
  {
    hide Next, Enabled, RunningByEvents;
    if n == 0 {
      FreshRunsNothing(lanes);
    } else {
      RunKeepsRunningByEvents(lanes, states, events, n - 1);
      StepKeepsRunningByEvents(states[n - 1], events[n - 1], events[..n - 1]);
      assert events[..n - 1] + [events[n - 1]] == events[..n];
    }
  }

  lemma FreshRunsNothing(lanes: seq<string>)
    ensures RunningByEvents(Fresh(lanes), [])
  {
  }

  predicate AnythingRuns(s: Sched) {
    || (exists id :: 0 <= id < |s.jobs| && s.jobs[id].phase == Running)
    || (exists i :: 0 <= i < |s.wakes| && s.wakes[i].phase == Running)
  }

  /** One of the first `count` scheduled bodies has not settled. */
  ghost predicate UnsettledJob(count: nat, past: seq<Event>) {
    exists id: nat :: id < count && JobSettles(id) !in past
  }

  /** A wake-up that fired has not settled. */
  ghost predicate UnsettledWake(past: seq<Event>) {
    exists i: nat :: i < Fired(past) && WakeSettles(i) !in past
  }

  lemma RunsIffUnsettled(lanes: seq<string>, states: seq<Sched>, events: seq<Event>, n: nat)
    requires IsRun(states, events) && states[0] == Fresh(lanes) && n < |states|
    ensures AnythingRuns(states[n]) <==> UnsettledJob(|states[n].jobs|, events[..n]) || UnsettledWake(events[..n])
  {
    RunKeepsRunningByEvents(lanes, states, events, n);
    var s, past := states[n], events[..n];
    if UnsettledJob(|s.jobs|, past) {
      var id: nat :| id < |s.jobs| && JobSettles(id) !in past;
      assert s.jobs[id].phase == Running;
    }
    if UnsettledWake(past) {
      var i: nat :| i < Fired(past) && WakeSettles(i) !in past;
      assert s.wakes[i].phase == Running;
    }
  }

  /** When the first `stop()` has resolved true, something runs exactly when a wake-up that fired
      has not settled. */
  lemma DrainedHonestIff(lanes: seq<string>, states: seq<Sched>, events: seq<Event>, n: nat)
    requires IsRun(states, events) && states[0] == Fresh(lanes) && n < |states| && states[n].stop == Resolved(true)
    ensures AnythingRuns(states[n]) <==> UnsettledWake(events[..n])
  {
    RunsIffUnsettled(lanes, states, events, n);
    RunKeepsRunningByEvents(lanes, states, events, n);
    RunKeepsInvariant(lanes, states, events, n);
  }

  lemma {:induction false} NoneFired(past: seq<Event>)
    requires forall e | e in past :: !e.WakeFires?
    ensures Fired(past) == 0
  {
    if past != [] {
      NoneFired(past[..|past| - 1]);
    }
  }

  /** Without wake-ups a true answer of the first `stop()` means that nothing runs. */
  lemma DrainedWithoutWakes(lanes: seq<string>, states: seq<Sched>, events: seq<Event>, n: nat)
    requires IsRun(states, events) && states[0] == Fresh(lanes) && n < |states| && states[n].stop == Resolved(true)
    requires forall e | e in events[..n] :: !e.WakeFires?
    ensures !AnythingRuns(states[n])
  {
    DrainedHonestIff(lanes, states, events, n);
    NoneFired(events[..n]);
  }

  /** Every repeated `stop()` answers true at once. Something runs behind that answer exactly when a
      body scheduled before the first `stop()`, or a wake-up that fired, has not settled. */
  lemma RepeatedStopAnswersTrue(lanes: seq<string>, states: seq<Sched>, events: seq<Event>, m: nat, n: nat)
    requires IsRun(states, events) && states[0] == Fresh(lanes)
    requires m < n < |events| && events[m] == StopCalled && events[n] == StopCalled
    ensures states[n + 1] == states[n].(answers := states[n].answers + [true])
    ensures AnythingRuns(states[n]) <==> UnsettledJob(|states[m].jobs|, events[..n]) || UnsettledWake(events[..n])
  {
    assert states[m + 1] == CallStop(states[m]) && states[n + 1] == CallStop(states[n]);
    StoppingIsForever(states, events, m + 1, n);
    RunsIffUnsettled(lanes, states, events, n);
  }

  // ----- Every stop can still drain

  /** Steps a body has still before it: to settle, and to leave the map of jobs in flight. */
  function Left(jobs: seq<Job>): nat {
    if jobs == [] then 0
    else
      Left(jobs[..|jobs| - 1])
      + match jobs[|jobs| - 1].phase
        case Running => 2
        case Settled => 1
        case Cleared => 0
  }

  lemma {:induction false} LeftUpdated(jobs: seq<Job>, id: nat, job: Job)
    requires id < |jobs|
    ensures Left(jobs[id := job]) + Left([jobs[id]]) == Left(jobs) + Left([job])
  {
    var last := |jobs| - 1;
    assert [jobs[id]][..0] == [] && [job][..0] == [];
    if id < last {
      LeftUpdated(jobs[..last], id, job);
      assert jobs[id := job][..last] == jobs[..last][id := job];
    } else {
      assert jobs[id := job][..last] == jobs[..last];
    }
  }

  /** The first `stop()` has been called and has neither answered nor failed. */
  predicate IsPending(stop: StopPhase) {
    stop.AwaitingListener? || stop.Racing?
  }

  function Remaining(s: Sched): nat {
    Left(s.jobs) + Left(s.wakes) + if s.stop.AwaitingListener? then 2 else if s.stop.Racing? then 1 else 0
  }

  /** Bodies coming to their end, and a stop going its way without a failure or a timeout. */
  predicate Drains(e: Event) {
    e.JobSettles? || e.JobClears? || e.WakeSettles? || e.ListenerStops? || e.PendingSettled?
  }

  predicate AllOver(s: Sched) {
    s.inFlight == map[] && !AnythingRuns(s) && !IsPending(s.stop)
  }

  lemma LeftOf(j: Job)
    ensures Left([j]) == if j.phase == Running then 2 else if j.phase == Settled then 1 else 0
  {
    assert [j][..0] == [];
  }

  lemma BodyDrains(s: Sched, id: nat) returns (e: Event)
    requires Live(s, id)
    ensures Drains(e) && Enabled(s, e) && Remaining(Next(s, e)) < Remaining(s)
  {
    e := if s.jobs[id].phase == Running then JobSettles(id) else JobClears(id);
    var job := Next(s, e).jobs[id];
    hide Left;
    LeftUpdated(s.jobs, id, job);
    LeftOf(s.jobs[id]);
    LeftOf(job);
  }

  lemma WakeDrains(s: Sched, i: nat) returns (e: Event)
    requires i < |s.wakes| && s.wakes[i].phase == Running
    ensures Drains(e) && Enabled(s, e) && Remaining(Next(s, e)) < Remaining(s)
  {
    e := WakeSettles(i);
    var job := Next(s, e).wakes[i];
    hide Left;
    LeftUpdated(s.wakes, i, job);
    LeftOf(s.wakes[i]);
    LeftOf(job);
  }

  /** Unless everything is over, some such step is possible. */
  lemma SomethingDrains(s: Sched) returns (e: Event)
    requires Invariant(s) && !AllOver(s)
    ensures Drains(e) && Enabled(s, e) && Remaining(Next(s, e)) < Remaining(s)
  {
    if id: nat :| Live(s, id) {
      e := BodyDrains(s, id);
    } else {
      assert s.inFlight == map[];
      NothingInFlight(s.inFlight);
      assert forall id: nat | id < |s.jobs| :: !Live(s, id);
      if i: nat :| i < |s.wakes| && s.wakes[i].phase == Running {
        e := WakeDrains(s, i);
      } else if s.stop.AwaitingListener? {
        e := ListenerStops;
      } else {
        assert AllSettled(s, s.stop.pending);
        e := PendingSettled;
      }
    }
  }

  /** What such a step leaves of the first `stop()` and of the answers. */
  lemma DrainingAnswers(s: Sched, e: Event)
    requires Drains(e) && Enabled(s, e)
    ensures var t := Next(s, e);
            && (!IsPending(s.stop) ==> t.stop == s.stop && t.answers == s.answers)
            && (IsPending(s.stop) ==>
                  || (IsPending(t.stop) && t.answers == s.answers)
                  || (t.stop == Resolved(true) && t.answers == s.answers + [true]))
  {
  }

  /** From every reachable state the bodies under way can end, and a `stop()` that is under way can then
      answer true: no state makes a timeout or a failed listener the only way out. */
  lemma {:induction false} CanDrain(lanes: seq<string>, states: seq<Sched>, events: seq<Event>)
    returns (run: seq<Sched>, more: seq<Event>)
    requires IsRun(states, events) && states[0] == Fresh(lanes)
    ensures IsRun(run, events + more) && states <= run && forall e | e in more :: Drains(e)
    ensures var now, end := states[|events|], run[|run| - 1];
            && AllOver(end)
            && (if IsPending(now.stop) then end.stop == Resolved(true) && end.answers == now.answers + [true]
                else end.stop == now.stop && end.answers == now.answers)
    decreases Remaining(states[|events|])
  {
    hide Invariant, Enabled, Next, Remaining, AllOver, Drains;
    var s := states[|events|];
    RunKeepsInvariant(lanes, states, events, |events|);
    if AllOver(s) {
      run, more := states, [];
      assert events + more == events;
      OverIsNotPending(s);
    } else {
      var e := SomethingDrains(s);
      DrainingAnswers(s, e);
      var rest;
      run, rest := CanDrain(lanes, states + [Next(s, e)], events + [e]);
      more := [e] + rest;
      assert events + more == events + [e] + rest;
    }
  }

  lemma OverIsNotPending(s: Sched)
    requires AllOver(s)
    ensures !IsPending(s.stop)
  {
  }

  // ----- When notifications are heard

  /** `start()` has been called before any `stop()`. */
  ghost predicate StartedFirst(past: seq<Event>) {
    exists k :: 0 <= k < |past| && past[k] == StartCalled && StopCalled !in past[..k]
  }

  lemma StartedStep(past: seq<Event>, e: Event)
    ensures StartedFirst(past + [e]) <==> StartedFirst(past) || (e == StartCalled && StopCalled !in past)
  {
    var all := past + [e];
    assert all[..|past|] == past && forall k | 0 <= k <= |past| :: all[..k] == past[..k];
    if StartedFirst(past) {
      var k :| 0 <= k < |past| && past[k] == StartCalled && StopCalled !in past[..k];
      assert all[k] == StartCalled && StopCalled !in all[..k];
    } else if e == StartCalled && StopCalled !in past {
      assert all[|past|] == StartCalled && StopCalled !in all[..|past|];
    }
  }

  /** The wake listener is up exactly from a start that came before any `stop()` until it has been stopped. */
  lemma {:induction false} ListeningByEvents(lanes: seq<string>, states: seq<Sched>, events: seq<Event>, n: nat)
    requires IsRun(states, events) && states[0] == Fresh(lanes) && n < |states|
    ensures states[n].started <==> StartedFirst(events[..n])
    ensures Listening(states[n]) <==> StartedFirst(events[..n]) && ListenerStops !in events[..n]
    ensures ListenerStops in events[..n] ==> !states[n].stop.NotCalled?
  {
    hide Next, Enabled, Invariant;
    if n > 0 {
      hide Listening, Drained, StartedFirst;
      ListeningByEvents(lanes, states, events, n - 1);
      StopOutcomeIff(lanes, states, events, n - 1);
      RunKeepsInvariant(lanes, states, events, n - 1);
      StepListens(states[n - 1], events[n - 1]);
      StartedStep(events[..n - 1], events[n - 1]);
      assert events[..n] == events[..n - 1] + [events[n - 1]];
    }
  }

  lemma StepListens(s: Sched, e: Event)
    requires Invariant(s) && Enabled(s, e)
    ensures Next(s, e).started <==> s.started || (e == StartCalled && s.stop.NotCalled?)
    ensures s.started ==> (Listening(Next(s, e)) <==> Listening(s) && e != ListenerStops)
    ensures !s.started ==> !Listening(s)
    ensures !s.started && Next(s, e).started ==> Listening(Next(s, e))
    ensures s.stop.NotCalled? ==> e != ListenerStops
    ensures Next(s, e).stop.NotCalled? ==> s.stop.NotCalled?
  {
    if e.StartCalled? && !s.stopping && !s.started {
      StartLanesExtends(s.(started := true), s.lanes);
    }
  }

  // ----- What the guard does not cover

  predicate RunningWake(s: Sched, lane: string) {
    exists i :: 0 <= i < |s.wakes| && s.wakes[i] == Job(lane, Running)
  }

  predicate RunningJob(s: Sched, lane: string) {
    exists i :: 0 <= i < |s.jobs| && s.jobs[i] == Job(lane, Running)
  }

  /** A run with one more step. */
  lemma Extend(states: seq<Sched>, events: seq<Event>, e: Event, next: Sched)
    returns (states': seq<Sched>, events': seq<Event>)
    requires IsRun(states, events) && Enabled(states[|events|], e) && next == Next(states[|events|], e)
    ensures IsRun(states', events') && states'[0] == states[0] && states'[|events'|] == next
  {
    states', events' := states + [next], events + [e];
  }

  /** A scheduler of one lane, called "outbox", just started. */
  function OutboxStarted(): Sched {
    Sched(["outbox"], map["outbox" := 0], [Job("outbox", Running)], ["outbox"], true, false, NotCalled, [], [])
  }

  lemma StartsOutbox() returns (states: seq<Sched>, events: seq<Event>)
    ensures IsRun(states, events) && states[0] == Fresh(["outbox"]) && states[|events|] == OutboxStarted()
  {
    var s0 := Fresh(["outbox"]);
    StartLanesStep(s0.(started := true), ["outbox"], 0);
    assert ["outbox"][..1] == ["outbox"];
    states, events := Extend([s0], [], StartCalled, OutboxStarted());
  }

  /** A second `stop()` answers true, here while the lane it should have drained still runs. */
  lemma RepeatedStopDoesNotWait() returns (states: seq<Sched>, events: seq<Event>)
    ensures IsRun(states, events) && states[0] == Fresh(["outbox"])
    ensures states[|events|].answers == [true] && RunningJob(states[|events|], "outbox")
  {
    states, events := StartsOutbox();
    hide IsRun;
    var s2 := CallStop(OutboxStarted());
    states, events := Extend(states, events, StopCalled, s2);
    states, events := Extend(states, events, StopCalled, CallStop(s2));
    assert states[|events|].jobs[0] == Job("outbox", Running);
  }

  /** A `stop()` that rejects: the timer is still armed and nobody waits for the body under way. */
  lemma RejectedWhileRunning() returns (states: seq<Sched>, events: seq<Event>)
    ensures IsRun(states, events) && states[0] == Fresh(["outbox"])
    ensures states[|events|].stop == Rejected && states[|events|].timers == ["outbox"]
    ensures RunningJob(states[|events|], "outbox")
  {
    states, events := StartsOutbox();
    hide IsRun;
    var s2 := CallStop(OutboxStarted());
    states, events := Extend(states, events, StopCalled, s2);
    states, events := Extend(states, events, ListenerFails, s2.(stop := Rejected));
    assert states[|events|].jobs[0] == Job("outbox", Running);
  }

  /** A wake-up runs a lane beside the scheduler's own body of it. */
  lemma WakeBypassesGuard() returns (states: seq<Sched>, events: seq<Event>)
    ensures IsRun(states, events) && states[0] == Fresh(["outbox"])
    ensures RunningJob(states[|events|], "outbox") && RunningWake(states[|events|], "outbox")
  {
    states, events := StartsOutbox();
    states, events := Extend(states, events, WakeFires("outbox"), Next(OutboxStarted(), WakeFires("outbox")));
    var s := states[|events|];
    assert s.jobs[0] == Job("outbox", Running) && s.wakes[0] == Job("outbox", Running);
  }

  /** The first `stop()` resolves true without waiting for a lane that a wake-up started. */
  lemma StopLeavesWakesRunning() returns (states: seq<Sched>, events: seq<Event>)
    ensures IsRun(states, events) && states[0] == Fresh(["outbox"])
    ensures states[|events|].stop == Resolved(true) && states[|events|].answers == [true]
    ensures RunningWake(states[|events|], "outbox")
  {
    states, events := StartsOutbox();
    hide IsRun, StartLanes;
    var s2 := OutboxStarted().(wakes := [Job("outbox", Running)]);
    states, events := Extend(states, events, WakeFires("outbox"), s2);
    var s3 := s2.(jobs := [Job("outbox", Settled)]);
    states, events := Extend(states, events, JobSettles(0), s3);
    var s4 := s3.(jobs := [Job("outbox", Cleared)], inFlight := map[]);
    assert s3.inFlight - {"outbox"} == map[];
    states, events := Extend(states, events, JobClears(0), s4);
    var s5 := s4.(stopping := true, stop := AwaitingListener);
    states, events := Extend(states, events, StopCalled, s5);
    var s6 := s5.(timers := [], stop := Resolved(true), answers := [true]);
    states, events := Extend(states, events, ListenerStops, s6);
    assert s6.wakes[0] == Job("outbox", Running);
  }

  // ----- The object

  /** The scheduler as its closure keeps it; each method is one uninterrupted stretch of its code. */
  class Scheduler {
    const lanes: seq<string>
    var inFlight: map<string, nat>
    var jobs: seq<Job>
    var timers: seq<string>
    var stopping: bool
    var started: bool
    var stop: StopPhase
    ghost var answers: seq<bool>
    ghost var wakes: seq<Job>

    ghost function State(): Sched
      reads this
    {
      Sched(lanes, inFlight, jobs, timers, started, stopping, stop, answers, wakes)
    }

    constructor (lanes: seq<string>)
      ensures State() == Fresh(lanes)
    {
      this.lanes := lanes;
      inFlight, jobs, timers := map[], [], [];
      stopping, started, stop := false, false, NotCalled;
      answers, wakes := [], [];
    }

    method Run(name: string)
      modifies this
      ensures State() == RunLane(old(State()), name)
    {
      if stopping || name in inFlight || name !in lanes {
        return;
      }
      var job := |jobs|;
      jobs := jobs + [Job(name, Running)];
      inFlight := inFlight[name := job];
    }

    method StartAll()
      modifies this
      ensures State() == Start(old(State()))
    {
      if stopping || started {
        return;
      }
      started := true;
      ghost var begun := State();
      assert StartLanes(begun, lanes[..0]) == begun;
      hide RunLane, StartLanes;
      for i := 0 to |lanes|
        invariant State() == StartLanes(begun, lanes[..i])
      {
        StartLanesStep(begun, lanes, i);
        Run(lanes[i]);
        timers := timers + [lanes[i]];
      }
      assert lanes[..|lanes|] == lanes;
    }

    method OnSettled(id: nat)
      requires id < |jobs| && jobs[id].phase == Running
      modifies this
      ensures State() == Settle(old(State()), id)
    {
      jobs := jobs[id := jobs[id].(phase := Settled)];
    }

    /** The `finally` chained to a job. */
    method OnFinally(id: nat)
      requires id < |jobs| && jobs[id].phase == Settled
      modifies this
      ensures State() == Clear(old(State()), id)
    {
      var name := jobs[id].lane;
      jobs := jobs[id := jobs[id].(phase := Cleared)];
      if name in inFlight && inFlight[name] == id {
        inFlight := inFlight - {name};
      }
    }

    /** `stop()` up to its first await, with its answer if that is all. */
    method BeginStop() returns (answer: Option<bool>)
      modifies this
      ensures State() == CallStop(old(State()))
      ensures State().answers == old(State()).answers + if answer.Some? then [answer.value] else []
      ensures answer == if old(stopping) then Some(true) else None
    {
      if stopping {
        answers := answers + [true];
        return Some(true);
      }
      stopping := true;
      stop := AwaitingListener;
      return None;
    }

    /** `stop()` after the wake listener has stopped, up to the race. */
    method SnapshotPending() returns (answer: Option<bool>)
      requires stop == AwaitingListener
      modifies this
      ensures State() == ListenerStopped(old(State()))
      ensures State().answers == old(State()).answers + if answer.Some? then [answer.value] else []
      ensures answer == if old(inFlight) == map[] then Some(true) else None
    {
      timers := [];
      var pending := inFlight.Values;
      if pending == {} {
        answer := Some(true);
        answers := answers + [true];
        stop := Resolved(true);
      } else {
        answer := None;
        stop := Racing(pending);
      }
    }

    /** The race is over: every pending job has settled, or the timeout came first. */
    method EndRace(drained: bool) returns (answer: bool)
      requires Enabled(State(), if drained then PendingSettled else TimedOut)
      modifies this
      ensures State() == Next(old(State()), if drained then PendingSettled else TimedOut)
      ensures State().answers == old(State()).answers + [answer]
      ensures answer == drained
    {
      stop := Resolved(drained);
      answers := answers + [drained];
      return drained;
    }
  }
}
