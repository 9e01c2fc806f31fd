/** The spreadsheet lane's own single flight: every caller, whether the scheduler's timer or a
    database wake-up, goes through one guard. */
module SheetsLane {

  import opened Results

  /** One run of the lane body. It is `Over` when its promise settles, and `Released` once the call
      that began it has resumed and emptied the guard. */
  datatype Run = Running | Over(failed: bool) | Released(failed: bool)

  /** What a call returns: the promise of a run, which it began itself or joined. */
  datatype Call = Began(run: nat) | Joined(run: nat) | Skipped

  datatype Lane = Lane(configured: bool, inFlight: Option<nat>, runs: seq<Run>, calls: seq<Call>)

  function Fresh(configured: bool): Lane {
    Lane(configured, None, [], [])
  }

  datatype Event = Called | BodyEnds(id: nat, failed: bool) | OwnerResumes(id: nat)

  predicate Enabled(s: Lane, e: Event) {
    match e
    case Called => true
    case BodyEnds(id, _) => id < |s.runs| && s.runs[id].Running?
    case OwnerResumes(id) => id < |s.runs| && s.runs[id].Over?
  }

  function CallLane(s: Lane): Lane {
    if !s.configured then s.(calls := s.calls + [Skipped])
    else if s.inFlight.Some? then s.(calls := s.calls + [Joined(s.inFlight.value)])
    else Lane(true, Some(|s.runs|), s.runs + [Running], s.calls + [Began(|s.runs|)])
  }

  function EndBody(s: Lane, id: nat, failed: bool): Lane
    requires id < |s.runs|
  {
    s.(runs := s.runs[id := Over(failed)])
  }

  function Release(s: Lane, id: nat): Lane
    requires id < |s.runs| && s.runs[id].Over?
  {
    s.(runs := s.runs[id := Released(s.runs[id].failed)],
       inFlight := if s.inFlight == Some(id) then None else s.inFlight)
  }

  function Next(s: Lane, e: Event): Lane
    requires Enabled(s, e)
  {
    match e
    case Called => CallLane(s)
    case BodyEnds(id, failed) => EndBody(s, id, failed)
    case OwnerResumes(id) => Release(s, id)
  }

  ghost predicate IsRun(states: seq<Lane>, events: seq<Event>) {
    && |states| == |events| + 1
    && forall k | 0 <= k < |events| :: Enabled(states[k], events[k]) && states[k + 1] == Next(states[k], events[k])
  }

  // ----- The guard

  predicate Unreleased(s: Lane, id: nat) {
    id < |s.runs| && !s.runs[id].Released?
  }

  /** The guard names the one run not yet released, and each run was begun by exactly one call. */
  ghost predicate Invariant(s: Lane) {
    && (forall id: nat :: Unreleased(s, id) <==> s.inFlight == Some(id))
    && (forall c | 0 <= c < |s.calls| && !s.calls[c].Skipped? :: s.calls[c].run < |s.runs|)
    && (forall id | 0 <= id < |s.runs| :: Began(id) in s.calls)
    && (forall c, d | 0 <= c < |s.calls| && 0 <= d < |s.calls| && s.calls[c].Began? && s.calls[c] == s.calls[d] ::
        c == d)
    && (!s.configured ==> s.runs == [])
  }

  lemma CallKeeps(s: Lane)
    requires Invariant(s)
    ensures Invariant(CallLane(s))
  {
    var t := CallLane(s);
    assert s.calls == t.calls[..|s.calls|];
    assert forall id: nat :: Unreleased(t, id) <==> Unreleased(s, id) || (|s.runs| < |t.runs| && id == |s.runs|);
    forall id | 0 <= id < |t.runs| ensures Began(id) in t.calls {
      if id < |s.runs| {
        assert Began(id) in s.calls;
      } else {
        assert t.calls[|s.calls|] == Began(id);
      }
    }
  }

  lemma StepKeepsInvariant(s: Lane, e: Event)
    requires Invariant(s) && Enabled(s, e)
    ensures Invariant(Next(s, e)) && Next(s, e).configured == s.configured
  {
    match e
    case Called => CallKeeps(s);
    case BodyEnds(id, failed) =>
      assert forall j: nat :: Unreleased(EndBody(s, id, failed), j) <==> Unreleased(s, j);
    case OwnerResumes(id) =>
      assert Unreleased(s, id);
      assert forall j: nat :: Unreleased(Release(s, id), j) <==> Unreleased(s, j) && j != id;
  }

  lemma {:induction false} RunKeepsInvariant(configured: bool, states: seq<Lane>, events: seq<Event>, n: nat)
    requires IsRun(states, events) && states[0] == Fresh(configured) && n < |states|
    ensures Invariant(states[n]) && states[n].configured == configured
  {
    if n > 0 {
      RunKeepsInvariant(configured, states, events, n - 1);
      StepKeepsInvariant(states[n - 1], events[n - 1]);
    }
  }

  /** Whoever calls and however often, at most one body runs. */
  lemma SingleFlight(configured: bool, states: seq<Lane>, events: seq<Event>, n: nat, i: nat, j: nat)
    requires IsRun(states, events) && states[0] == Fresh(configured) && n < |states|
    requires i < |states[n].runs| && j < |states[n].runs| && states[n].runs[i].Running? && states[n].runs[j].Running?
    ensures i == j
  {
    RunKeepsInvariant(configured, states, events, n);
    assert Unreleased(states[n], i) && Unreleased(states[n], j);
  }

  /** Without the spreadsheet configured nothing ever runs. */
  lemma UnconfiguredNeverRuns(states: seq<Lane>, events: seq<Event>, n: nat)
    requires IsRun(states, events) && states[0] == Fresh(false) && n < |states|
    ensures states[n].runs == [] && forall c | 0 <= c < |states[n].calls| :: states[n].calls[c] == Skipped
  {
    RunKeepsInvariant(false, states, events, n);
  }

  predicate AllReleased(s: Lane) {
    forall id | 0 <= id < |s.runs| :: s.runs[id].Released?
  }

  /** A call begins a body exactly when every earlier body's owner has resumed; otherwise it joins
      the one run not yet released, which may be over already. Either way it begins no second one. */
  lemma CallOutcome(configured: bool, states: seq<Lane>, events: seq<Event>, n: nat)
    requires IsRun(states, events) && states[0] == Fresh(configured) && n < |events| && events[n] == Called
    ensures |states[n + 1].calls| == |states[n].calls| + 1
    ensures var answer := states[n + 1].calls[|states[n].calls|];
            && (answer.Skipped? <==> !configured)
            && (answer.Began? <==> configured && AllReleased(states[n]))
            && (answer.Began? <==> |states[n + 1].runs| > |states[n].runs|)
            && (!answer.Skipped? ==> Unreleased(states[n + 1], answer.run))
    ensures !configured ==> states[n + 1].runs == []
  {
    RunKeepsInvariant(configured, states, events, n);
    RunKeepsInvariant(configured, states, events, n + 1);
    if !configured {
      UnconfiguredNeverRuns(states, events, n + 1);
    }
    var s := states[n];
    if s.inFlight.Some? {
      assert Unreleased(s, s.inFlight.value);
    } else {
      forall id | 0 <= id < |s.runs| ensures s.runs[id].Released? {
        assert !Unreleased(s, id);
      }
    }
  }

  /** A call after the body is over and before its owner resumed joins the finished run. */
  lemma CallJoinsFinishedRun() returns (states: seq<Lane>, events: seq<Event>)
    ensures IsRun(states, events) && states[0] == Fresh(true)
    ensures var last := states[|events|];
            |last.runs| == 1 && last.runs[0] == Over(false) && last.calls == [Began(0), Joined(0)]
  {
    var s1 := CallLane(Fresh(true));
    var s2 := EndBody(s1, 0, false);
    states, events := [Fresh(true), s1, s2, CallLane(s2)], [Called, BodyEnds(0, false), Called];
  }

  // ----- The object

  class Guard {
    const configured: bool
    var inFlight: Option<nat>
    var runs: seq<Run>
    var calls: seq<Call>

    ghost function State(): Lane
      reads this
    {
      Lane(configured, inFlight, runs, calls)
    }

    constructor (configured: bool)
      ensures State() == Fresh(configured)
    {
      this.configured := configured;
      inFlight, runs, calls := None, [], [];
    }

    /** A call up to its first await. */
    method Begin()
      modifies this
      ensures State() == CallLane(old(State()))
    {
      if !configured {
        calls := calls + [Skipped];
        return;
      }
      if inFlight.Some? {
        calls := calls + [Joined(inFlight.value)];
        return;
      }
      var run := |runs|;
      runs := runs + [Running];
      inFlight := Some(run);
      calls := calls + [Began(run)];
    }

    method OnBodyEnds(id: nat, failed: bool)
      requires id < |runs| && runs[id].Running?
      modifies this
      ensures State() == EndBody(old(State()), id, failed)
    {
      runs := runs[id := Over(failed)];
    }

    /** The `finally` of the call that began the run. */
    method OnOwnerResumes(id: nat)
      requires id < |runs| && runs[id].Over?
      modifies this
      ensures State() == Release(old(State()), id)
    {
      runs := runs[id := Released(runs[id].failed)];
      if inFlight == Some(id) {
        inFlight := None;
      }
    }
  }
}
