/** The notification delivery lane: several workers share one index into a list of claimed
    deliveries. A worker's code between two awaits is one step; the steps of different workers
    interleave in any order. */
module NotificationLane {

  /** Where a worker is suspended. `Done` left the loop; `Failed` threw out of it. */
  datatype Phase =
    | Reserving(i: nat) | Sleeping(i: nat) | CheckingPause(i: nat) | PauseSleeping(i: nat) | Sending(i: nat)
    | Done | Failed

  datatype Action =
    | Took(w: nat, i: nat) | SlotReserved(w: nat, delay: nat) | Slept(w: nat)
    | PauseRead(w: nat, remaining: nat) | Sent(w: nat, i: nat)

  /** What became of a taken delivery: still in a worker's hands, processed to an outcome, or
      dropped by a worker that threw. */
  datatype Fate = Held(w: nat) | Completed(w: nat) | Lost(w: nat)

  /** `n` deliveries were claimed. `log` and `fates` record what happened. */
  datatype Lane = Lane(n: nat, next: nat, workers: seq<Phase>, log: seq<Action>, fates: seq<Fate>)

  predicate Ended(p: Phase) {
    p.Done? || p.Failed?
  }

  /** The loop test, and the shared index read and bumped in the same step. */
  function Take(s: Lane, w: nat): Lane
    requires w < |s.workers|
  {
    if s.next < s.n then
      s.(next := s.next + 1, workers := s.workers[w := Reserving(s.next)],
         log := s.log + [Took(w, s.next)], fates := s.fates + [Held(w)])
    else s.(workers := s.workers[w := Done])
  }

  /** `k` workers begun one after the other, each running to its first await. */
  function Begun(n: nat, k: nat): (s: Lane)
    ensures |s.workers| == k
  {
    if k == 0 then Lane(n, 0, [], [], [])
    else
      var s := Begun(n, k - 1);
      Take(s.(workers := s.workers + [Done]), k - 1)
  }

  datatype Event =
    | Reserved(w: nat, delay: nat) | Woke(w: nat) | PauseAnswered(w: nat, remaining: nat)
    | Processed(w: nat) | Threw(w: nat) | CallbackThrew(w: nat)

  /** Any awaited call may also throw. `CallbackThrew` is the uncertain-send callback throwing after
      the delivery was processed. */
  predicate Enabled(s: Lane, e: Event) {
    && e.w < |s.workers|
    && match e
       case Reserved(w, _) => s.workers[w].Reserving?
       case Woke(w) => s.workers[w].Sleeping? || s.workers[w].PauseSleeping?
       case PauseAnswered(w, _) => s.workers[w].CheckingPause?
       case Processed(w) => s.workers[w].Sending?
       case Threw(w) => !Ended(s.workers[w])
       case CallbackThrew(w) => s.workers[w].Sending?
  }

  /** The delivery a suspended worker holds. */
  function Holding(p: Phase): nat
    requires !Ended(p)
  {
    p.i
  }

  function Move(s: Lane, w: nat, p: Phase): Lane
    requires w < |s.workers|
  {
    s.(workers := s.workers[w := p])
  }

  function Note(s: Lane, a: Action): Lane {
    s.(log := s.log + [a])
  }

  function ReadPause(s: Lane, w: nat, i: nat, remaining: nat): Lane
    requires w < |s.workers|
  {
    if remaining > 0 then Move(Note(s, PauseRead(w, remaining)), w, PauseSleeping(i))
    else Move(s, w, Sending(i)).(log := s.log + [PauseRead(w, 0), Sent(w, i)])
  }

  function Decide(s: Lane, i: nat, fate: Fate): Lane {
    if i < |s.fates| then s.(fates := s.fates[i := fate]) else s
  }

  function Next(s: Lane, e: Event): Lane
    requires Enabled(s, e)
  {
    var w := e.w;
    var i := Holding(s.workers[w]);
    match e
    case Reserved(_, delay) =>
      Move(Note(s, SlotReserved(w, delay)), w, if delay > 0 then Sleeping(i) else CheckingPause(i))
    case Woke(_) => Move(Note(s, Slept(w)), w, CheckingPause(i))
    case PauseAnswered(_, remaining) => ReadPause(s, w, i, remaining)
    case Processed(_) => Take(Decide(s, i, Completed(w)), w)
    case Threw(_) => Move(Decide(s, i, Lost(w)), w, Failed)
    case CallbackThrew(_) => Move(Decide(s, i, Completed(w)), w, Failed)
  }

  ghost predicate IsRun(n: nat, k: nat, states: seq<Lane>, events: seq<Event>) {
    && |states| == |events| + 1 && states[0] == Begun(n, k)
    && forall j | 0 <= j < |events| :: Enabled(states[j], events[j]) && states[j + 1] == Next(states[j], events[j])
  }

  // ----- What the log says

  /** The deliveries taken, in the order of the log. */
  function Takes(log: seq<Action>): seq<nat> {
    if log == [] then []
    else
      var last := log[|log| - 1];
      Takes(log[..|log| - 1]) + if last.Took? then [last.i] else []
  }

  /** The deliveries handed to the responder, in the order of the log. */
  function Sends(log: seq<Action>): seq<nat> {
    if log == [] then []
    else
      var last := log[|log| - 1];
      Sends(log[..|log| - 1]) + if last.Sent? then [last.i] else []
  }

  lemma LogOne(log: seq<Action>, a: Action)
    ensures Takes(log + [a]) == Takes(log) + if a.Took? then [a.i] else []
    ensures Sends(log + [a]) == Sends(log) + if a.Sent? then [a.i] else []
  {
    assert (log + [a])[..|log|] == log;
  }

  lemma LogTwo(log: seq<Action>, a: Action, b: Action)
    requires a.PauseRead? && b.Sent?
    ensures Takes(log + [a, b]) == Takes(log) && Sends(log + [a, b]) == Sends(log) + [b.i]
  {
    LogOne(log, a);
    LogOne(log + [a], b);
    assert log + [a, b] == log + [a] + [b];
  }

  function Upto(n: nat): (s: seq<nat>)
    ensures |s| == n && forall k | 0 <= k < n :: s[k] == k
  {
    if n == 0 then [] else Upto(n - 1) + [n - 1]
  }

  predicate Distinct(s: seq<nat>) {
    forall a, b | 0 <= a < b < |s| :: s[a] != s[b]
  }

  // ----- The invariant

  ghost predicate FatesMatch(s: Lane) {
    && |s.fates| == s.next <= s.n
    && (forall i | 0 <= i < s.next :: s.fates[i].w < |s.workers|)
    && (forall i | 0 <= i < s.next && s.fates[i].Held? ::
          !Ended(s.workers[s.fates[i].w]) && Holding(s.workers[s.fates[i].w]) == i)
    && (forall w | 0 <= w < |s.workers| && !Ended(s.workers[w]) ::
          Holding(s.workers[w]) < s.next && s.fates[Holding(s.workers[w])] == Held(w))
  }

  /** A worker drops a delivery only by failing, and so at most one. */
  ghost predicate LossesMatch(s: Lane) {
    && (forall i | 0 <= i < |s.fates| && s.fates[i].Lost? ::
          s.fates[i].w < |s.workers| && s.workers[s.fates[i].w] == Failed)
    && (forall i, j | 0 <= i < j < |s.fates| && s.fates[i].Lost? && s.fates[j].Lost? :: s.fates[i].w != s.fates[j].w)
  }

  ghost predicate SendsMatch(s: Lane) {
    && |s.fates| == s.next
    && Distinct(Sends(s.log))
    && (forall i | 0 <= i < s.next && s.fates[i].Completed? :: i in Sends(s.log))
    && (forall w | 0 <= w < |s.workers| && s.workers[w].Sending? :: s.workers[w].i in Sends(s.log))
    && (forall i | i in Sends(s.log) ::
          i < s.next
          && (s.fates[i].Held? ==> s.fates[i].w < |s.workers| && s.workers[s.fates[i].w] == Sending(i)))
  }

  /** Workers leave the loop only once the list is exhausted. */
  predicate DoneMeansExhausted(s: Lane) {
    forall w | 0 <= w < |s.workers| && s.workers[w].Done? :: s.next == s.n
  }

  ghost predicate Invariant(s: Lane) {
    FatesMatch(s) && LossesMatch(s) && SendsMatch(s) && DoneMeansExhausted(s) && Takes(s.log) == Upto(s.next)
  }

  /** The invariant for a worker about to take its next delivery: its slot is idle, and what `Done`
      means is known of the others only. */
  ghost predicate ReadyToTake(s: Lane, w: nat) {
    && w < |s.workers| && s.workers[w].Done?
    && FatesMatch(s) && LossesMatch(s) && SendsMatch(s) && Takes(s.log) == Upto(s.next)
    && forall v | 0 <= v < |s.workers| && v != w && s.workers[v].Done? :: s.next == s.n
  }

  lemma TakeKeepsFates(s: Lane, w: nat)
    requires w < |s.workers| && s.workers[w].Done? && FatesMatch(s)
    ensures FatesMatch(Take(s, w))
  {
  }

  lemma TakeKeepsLosses(s: Lane, w: nat)
    requires w < |s.workers| && s.workers[w].Done? && LossesMatch(s)
    ensures LossesMatch(Take(s, w))
  {
  }

  lemma TakeKeepsSends(s: Lane, w: nat)
    requires w < |s.workers| && s.workers[w].Done? && SendsMatch(s) && |s.fates| == s.next <= s.n
    requires forall i | 0 <= i < s.next && s.fates[i].Held? :: s.fates[i].w != w
    ensures SendsMatch(Take(s, w))
  {
    if s.next < s.n {
      LogOne(s.log, Took(w, s.next));
    }
  }

  lemma IdleHoldsNothing(s: Lane, w: nat)
    requires FatesMatch(s) && w < |s.workers| && s.workers[w].Done?
    ensures |s.fates| == s.next <= s.n && forall i | 0 <= i < s.next && s.fates[i].Held? :: s.fates[i].w != w
  {
  }

  lemma TakeKeeps(s: Lane, w: nat)
    requires ReadyToTake(s, w)
    ensures Invariant(Take(s, w))
  {
    hide SendsMatch, FatesMatch, LossesMatch;
    IdleHoldsNothing(s, w);
    TakeKeepsSends(s, w);
    TakeKeepsFates(s, w);
    TakeKeepsLosses(s, w);
    if s.next < s.n {
      LogOne(s.log, Took(w, s.next));
    }
  }

  lemma SpawnReady(s: Lane)
    requires Invariant(s)
    ensures ReadyToTake(s.(workers := s.workers + [Done]), |s.workers|)
  {
  }

  lemma {:induction false} BegunKeeps(n: nat, k: nat)
    ensures Invariant(Begun(n, k)) && Begun(n, k).n == n
  {
    if k > 0 {
      BegunKeeps(n, k - 1);
      SpawnReady(Begun(n, k - 1));
      var s := Begun(n, k - 1);
      hide Invariant, ReadyToTake;
      TakeKeeps(s.(workers := s.workers + [Done]), k - 1);
    }
  }

  /** Moving on with the same delivery in hand. */
  predicate MovesOn(s: Lane, w: nat, p: Phase) {
    w < |s.workers| && !Ended(s.workers[w]) && !Ended(p) && Holding(p) == Holding(s.workers[w])
  }

  lemma MovesOnKeepsFates(s: Lane, w: nat, p: Phase)
    requires FatesMatch(s) && LossesMatch(s) && MovesOn(s, w, p)
    ensures FatesMatch(Move(s, w, p)) && LossesMatch(Move(s, w, p))
  {
  }

  lemma MovesOnKeepsSends(s: Lane, w: nat, p: Phase)
    requires SendsMatch(s) && MovesOn(s, w, p) && !s.workers[w].Sending? && !p.Sending?
    ensures SendsMatch(Move(s, w, p))
  {
  }

  lemma NoteKeepsSends(s: Lane, a: Action)
    requires SendsMatch(s) && !a.Sent?
    ensures SendsMatch(Note(s, a))
  {
    LogOne(s.log, a);
  }

  /** Going on without sending, whatever is noted of it. */
  lemma MoveKeeps(s: Lane, w: nat, p: Phase, a: Action)
    requires Invariant(s) && MovesOn(s, w, p) && !s.workers[w].Sending? && !p.Sending? && !a.Took? && !a.Sent?
    ensures Invariant(Move(Note(s, a), w, p))
  {
    LogAside(s, s.log + [a]);
    NoteKeepsSends(s, a);
    LogOne(s.log, a);
    hide FatesMatch, LossesMatch, SendsMatch;
    MovesOnKeepsFates(Note(s, a), w, p);
    MovesOnKeepsSends(Note(s, a), w, p);
  }

  /** The delivery handed over was not handed over before: its holder was not sending. */
  lemma SendKeepsSends(s: Lane, w: nat)
    requires SendsMatch(s) && w < |s.workers| && s.workers[w].CheckingPause? && s.workers[w].i < s.next
    requires s.fates[s.workers[w].i] == Held(w)
    ensures SendsMatch(ReadPause(s, w, s.workers[w].i, 0))
  {
    var i := s.workers[w].i;
    assert i !in Sends(s.log);
    LogTwo(s.log, PauseRead(w, 0), Sent(w, i));
  }

  /** Only the sends depend on the log. */
  lemma LogAside(s: Lane, log: seq<Action>)
    requires FatesMatch(s) && LossesMatch(s)
    ensures FatesMatch(s.(log := log)) && LossesMatch(s.(log := log))
  {
  }

  lemma HolderKnown(s: Lane, w: nat)
    requires FatesMatch(s) && w < |s.workers| && !Ended(s.workers[w])
    ensures var i := Holding(s.workers[w]); i < s.next == |s.fates| && s.fates[i] == Held(w)
  {
  }

  lemma ReadPauseKeeps(s: Lane, w: nat, remaining: nat)
    requires Invariant(s) && w < |s.workers| && s.workers[w].CheckingPause?
    ensures Invariant(ReadPause(s, w, s.workers[w].i, remaining))
  {
    var i := s.workers[w].i;
    if remaining > 0 {
      MoveKeeps(s, w, PauseSleeping(i), PauseRead(w, remaining));
    } else {
      hide FatesMatch, LossesMatch, SendsMatch;
      HolderKnown(s, w);
      MovesOnKeepsFates(s, w, Sending(i));
      LogAside(Move(s, w, Sending(i)), ReadPause(s, w, i, 0).log);
      SendKeepsSends(s, w);
      LogTwo(s.log, PauseRead(w, 0), Sent(w, i));
    }
  }

  /** A worker that was sending is free again once its delivery has an outcome. */
  lemma ProcessedFrees(s: Lane, w: nat)
    requires Invariant(s) && w < |s.workers| && s.workers[w].Sending?
    ensures ReadyToTake(Move(Decide(s, s.workers[w].i, Completed(w)), w, Done), w)
  {
    var i := s.workers[w].i;
    assert s.fates[i] == Held(w) && i in Sends(s.log);
  }

  lemma FailureKeepsFates(s: Lane, w: nat, fate: Fate)
    requires FatesMatch(s) && LossesMatch(s)
    requires w < |s.workers| && !Ended(s.workers[w]) && fate.w == w && !fate.Held?
    ensures FatesMatch(Move(Decide(s, Holding(s.workers[w]), fate), w, Failed))
    ensures LossesMatch(Move(Decide(s, Holding(s.workers[w]), fate), w, Failed))
  {
  }

  lemma FailureKeepsSends(s: Lane, w: nat, fate: Fate)
    requires SendsMatch(s) && w < |s.workers| && !Ended(s.workers[w]) && fate.w == w && !fate.Held?
    requires Holding(s.workers[w]) < s.next && s.fates[Holding(s.workers[w])] == Held(w)
    requires fate.Completed? ==> s.workers[w].Sending?
    ensures SendsMatch(Move(Decide(s, Holding(s.workers[w]), fate), w, Failed))
  {
    assert s.workers[w].Sending? ==> Holding(s.workers[w]) in Sends(s.log);
  }

  lemma FailureKeeps(s: Lane, w: nat, fate: Fate)
    requires Invariant(s) && w < |s.workers| && !Ended(s.workers[w])
    requires fate == Lost(w) || (fate == Completed(w) && s.workers[w].Sending?)
    ensures Invariant(Move(Decide(s, Holding(s.workers[w]), fate), w, Failed))
  {
    hide FatesMatch, LossesMatch, SendsMatch;
    HolderKnown(s, w);
    FailureKeepsFates(s, w, fate);
    FailureKeepsSends(s, w, fate);
  }

  lemma StepKeepsInvariant(s: Lane, e: Event)
    requires Invariant(s) && Enabled(s, e)
    ensures Invariant(Next(s, e)) && Next(s, e).n == s.n && |Next(s, e).workers| == |s.workers|
  {
    hide Invariant, ReadyToTake;
    match e
    case Reserved(w, delay) =>
      MoveKeeps(s, w, if delay > 0 then Sleeping(s.workers[w].i) else CheckingPause(s.workers[w].i),
                SlotReserved(w, delay));
    case Woke(w) => MoveKeeps(s, w, CheckingPause(s.workers[w].i), Slept(w));
    case PauseAnswered(w, remaining) => ReadPauseKeeps(s, w, remaining);
    case Processed(w) =>
      ProcessedFrees(s, w);
      var free := Move(Decide(s, s.workers[w].i, Completed(w)), w, Done);
      TakeKeeps(free, w);
      assert Take(free, w) == Take(Decide(s, s.workers[w].i, Completed(w)), w);
    case Threw(w) => FailureKeeps(s, w, Lost(w));
    case CallbackThrew(w) => FailureKeeps(s, w, Completed(w));
  }

  lemma {:induction false} RunKeepsInvariant(n: nat, k: nat, states: seq<Lane>, events: seq<Event>, m: nat)
    requires IsRun(n, k, states, events) && m < |states|
    ensures Invariant(states[m]) && states[m].n == n && |states[m].workers| == k
  {
    hide Invariant, Next, Enabled;
    if m == 0 {
      BegunKeeps(n, k);
    } else {
      RunKeepsInvariant(n, k, states, events, m - 1);
      StepKeepsInvariant(states[m - 1], events[m - 1]);
    }
  }

  // ----- The results

  /** Deliveries are taken in index order, each exactly once, whatever the workers do. */
  lemma TakenOnceInOrder(n: nat, k: nat, states: seq<Lane>, events: seq<Event>, m: nat)
    requires IsRun(n, k, states, events) && m < |states|
    ensures Takes(states[m].log) == Upto(states[m].next) && states[m].next <= n
  {
    RunKeepsInvariant(n, k, states, events, m);
  }

  /** No delivery is handed to the responder twice, and only deliveries that were taken are. */
  lemma SentAtMostOnce(n: nat, k: nat, states: seq<Lane>, events: seq<Event>, m: nat)
    requires IsRun(n, k, states, events) && m < |states|
    ensures Distinct(Sends(states[m].log))
    ensures forall i | i in Sends(states[m].log) :: i < states[m].next
  {
    RunKeepsInvariant(n, k, states, events, m);
  }

  // ----- The pace of one worker

  /** What one worker did. */
  function Own(log: seq<Action>, w: nat): seq<Action> {
    if log == [] then []
    else
      var last := log[|log| - 1];
      Own(log[..|log| - 1], w) + if last.w == w then [last] else []
  }

  /** What may come next in a worker's life: a slot for the delivery just taken, the sleep the slot
      or a pause asks for, a look at the pause after it, and the send only on a pause of zero. */
  predicate Follows(a: Action, b: Action) {
    match a
    case Took(_, _) => b.SlotReserved?
    case SlotReserved(_, delay) => if delay > 0 then b.Slept? else b.PauseRead?
    case Slept(_) => b.PauseRead?
    case PauseRead(_, remaining) => if remaining > 0 then b.Slept? else b.Sent?
    case Sent(_, _) => b.Took?
  }

  predicate Paced(own: seq<Action>) {
    && (own != [] ==> own[0].Took?)
    && forall k | 0 < k < |own| :: Follows(own[k - 1], own[k])
  }

  /** What a worker did last, by where it is suspended. */
  predicate LastFits(p: Phase, own: seq<Action>) {
    match p
    case Done => own == [] || own[|own| - 1].Sent?
    case Failed => true
    case _ =>
      && own != []
      && var last := own[|own| - 1];
         match p
         case Reserving(i) => last.Took? && last.i == i
         case Sleeping(_) => last.SlotReserved? && last.delay > 0
         case CheckingPause(_) => last.Slept? || (last.SlotReserved? && last.delay == 0)
         case PauseSleeping(_) => last.PauseRead? && last.remaining > 0
         case Sending(i) => last.Sent? && last.i == i
         case _ => true
  }

  ghost predicate Pacing(s: Lane, w: nat) {
    w < |s.workers| ==> Paced(Own(s.log, w)) && LastFits(s.workers[w], Own(s.log, w))
  }

  lemma OwnOne(log: seq<Action>, a: Action, w: nat)
    ensures Own(log + [a], w) == if a.w == w then Own(log, w) + [a] else Own(log, w)
  {
    assert (log + [a])[..|log|] == log;
  }

  lemma PacedOne(own: seq<Action>, a: Action)
    requires Paced(own) && if own == [] then a.Took? else Follows(own[|own| - 1], a)
    ensures Paced(own + [a])
  {
  }

  lemma TakeKeepsPace(s: Lane, w: nat, v: nat)
    requires w < |s.workers| && s.workers[w].Done? && Pacing(s, v)
    ensures Pacing(Take(s, w), v)
  {
    hide Own, Paced;
    if s.next < s.n {
      OwnOne(s.log, Took(w, s.next), v);
      if v == w {
        PacedOne(Own(s.log, w), Took(w, s.next));
      }
    }
  }

  lemma {:induction false} NobodyActed(n: nat, k: nat, v: nat)
    requires k <= v
    ensures Own(Begun(n, k).log, v) == []
  {
    if k > 0 {
      NobodyActed(n, k - 1, v);
      var s := Begun(n, k - 1);
      if s.next < s.n {
        OwnOne(s.log, Took(k - 1, s.next), v);
      }
    }
  }

  lemma JoinKeepsPace(s: Lane, v: nat)
    requires Pacing(s, v) && (v == |s.workers| ==> Own(s.log, v) == [])
    ensures Pacing(s.(workers := s.workers + [Done]), v)
  {
    hide Own;
  }

  lemma BegunUnfolds(n: nat, k: nat, v: nat)
    ensures Pacing(Begun(n, 0), v)
    ensures Begun(n, k + 1) == Take(Begun(n, k).(workers := Begun(n, k).workers + [Done]), k)
  {
  }

  lemma {:induction false} BegunPaced(n: nat, k: nat, v: nat)
    ensures Pacing(Begun(n, k), v)
  {
    hide *;
    if k == 0 {
      BegunUnfolds(n, k, v);
    } else {
      var s := Begun(n, k - 1);
      BegunPaced(n, k - 1, v);
      NobodyActed(n, k - 1, k - 1);
      JoinKeepsPace(s, v);
      TakeKeepsPace(s.(workers := s.workers + [Done]), k - 1, v);
      BegunUnfolds(n, k - 1, v);
    }
  }

  lemma MoveKeepsPace(s: Lane, w: nat, p: Phase, a: Action, v: nat)
    requires w < |s.workers| && !Ended(s.workers[w]) && a.w == w && Pacing(s, v)
    requires v == w ==> Follows(Own(s.log, w)[|Own(s.log, w)| - 1], a) && LastFits(p, [a])
    requires !p.Done?
    ensures Pacing(Move(Note(s, a), w, p), v)
  {
    hide Own, Paced, Follows;
    OwnOne(s.log, a, v);
    if v == w {
      PacedOne(Own(s.log, w), a);
    }
  }

  lemma ReservedKeepsPace(s: Lane, w: nat, delay: nat, v: nat)
    requires Enabled(s, Reserved(w, delay)) && Pacing(s, v)
    ensures Pacing(Next(s, Reserved(w, delay)), v)
  {
    var i := s.workers[w].i;
    MoveKeepsPace(s, w, if delay > 0 then Sleeping(i) else CheckingPause(i), SlotReserved(w, delay), v);
  }

  lemma WokeKeepsPace(s: Lane, w: nat, v: nat)
    requires Enabled(s, Woke(w)) && Pacing(s, v)
    ensures Pacing(Next(s, Woke(w)), v)
  {
    MoveKeepsPace(s, w, CheckingPause(s.workers[w].i), Slept(w), v);
  }

  lemma OwnTwo(log: seq<Action>, a: Action, b: Action, v: nat)
    requires a.w == b.w
    ensures Own(log + [a, b], v) == if a.w == v then Own(log, v) + [a] + [b] else Own(log, v)
  {
    hide Own;
    OwnOne(log, a, v);
    OwnOne(log + [a], b, v);
    assert log + [a, b] == log + [a] + [b];
  }

  lemma SendsAfterReading(own: seq<Action>, w: nat, i: nat)
    requires Paced(own) && LastFits(CheckingPause(i), own)
    ensures var after := own + [PauseRead(w, 0)] + [Sent(w, i)]; Paced(after) && LastFits(Sending(i), after)
  {
    hide Paced;
    PacedOne(own, PauseRead(w, 0));
    PacedOne(own + [PauseRead(w, 0)], Sent(w, i));
  }

  lemma SendKeepsPace(s: Lane, w: nat, v: nat)
    requires Enabled(s, PauseAnswered(w, 0)) && Pacing(s, v)
    ensures Pacing(Next(s, PauseAnswered(w, 0)), v)
  {
    hide Own, Paced, LastFits;
    var i := s.workers[w].i;
    OwnTwo(s.log, PauseRead(w, 0), Sent(w, i), v);
    if v == w {
      SendsAfterReading(Own(s.log, w), w, i);
    }
  }

  lemma PauseKeepsPace(s: Lane, w: nat, remaining: nat, v: nat)
    requires Enabled(s, PauseAnswered(w, remaining)) && Pacing(s, v)
    ensures Pacing(Next(s, PauseAnswered(w, remaining)), v)
  {
    if remaining > 0 {
      MoveKeepsPace(s, w, PauseSleeping(s.workers[w].i), PauseRead(w, remaining), v);
    } else {
      SendKeepsPace(s, w, v);
    }
  }

  lemma ProcessedKeepsPace(s: Lane, w: nat, v: nat)
    requires Enabled(s, Processed(w)) && Pacing(s, v)
    ensures Pacing(Next(s, Processed(w)), v)
  {
    var free := Move(Decide(s, s.workers[w].i, Completed(w)), w, Done);
    assert Pacing(free, v);
    TakeKeepsPace(free, w, v);
    assert Take(free, w) == Take(Decide(s, s.workers[w].i, Completed(w)), w);
  }

  lemma FailureKeepsPace(s: Lane, e: Event, v: nat)
    requires (e.Threw? || e.CallbackThrew?) && Enabled(s, e) && Pacing(s, v)
    ensures Pacing(Next(s, e), v)
  {
  }

  lemma StepKeepsPace(s: Lane, e: Event, v: nat)
    requires Enabled(s, e) && Pacing(s, v)
    ensures Pacing(Next(s, e), v)
  {
    hide *;
    match e
    case Reserved(w, delay) => ReservedKeepsPace(s, w, delay, v);
    case Woke(w) => WokeKeepsPace(s, w, v);
    case PauseAnswered(w, remaining) => PauseKeepsPace(s, w, remaining, v);
    case Processed(w) => ProcessedKeepsPace(s, w, v);
    case Threw(w) => FailureKeepsPace(s, e, v);
    case CallbackThrew(w) => FailureKeepsPace(s, e, v);
  }

  /** Each worker handles its deliveries one after the other, and for each waits out its reserved
      slot and every pause it reads before sending. */
  lemma {:induction false} WorkersKeepPace(n: nat, k: nat, states: seq<Lane>, events: seq<Event>, m: nat, w: nat)
    requires IsRun(n, k, states, events) && m < |states| && w < k
    ensures |states[m].workers| == k && Paced(Own(states[m].log, w))
            && LastFits(states[m].workers[w], Own(states[m].log, w))
  {
    hide Next, Enabled, Paced, LastFits;
    if m == 0 {
      BegunPaced(n, k, w);
    } else {
      WorkersKeepPace(n, k, states, events, m - 1, w);
      StepKeepsPace(states[m - 1], events[m - 1], w);
      RunKeepsInvariant(n, k, states, events, m);
    }
  }

  // ----- When workers end

  predicate AllEnded(s: Lane) {
    forall w | 0 <= w < |s.workers| :: Ended(s.workers[w])
  }

  /** Every taken delivery has one holder, an outcome after being sent, or a worker that threw. */
  lemma NothingMislaid(n: nat, k: nat, states: seq<Lane>, events: seq<Event>, m: nat, i: nat)
    requires IsRun(n, k, states, events) && m < |states| && i < states[m].next
    ensures var s := states[m];
            && |s.workers| == k && i < |s.fates| && s.fates[i].w < k
            && (s.fates[i].Held? <==> exists w :: 0 <= w < k && !Ended(s.workers[w]) && Holding(s.workers[w]) == i)
            && (forall w, v | 0 <= w < v < k && !Ended(s.workers[w]) && !Ended(s.workers[v]) ::
                Holding(s.workers[w]) != Holding(s.workers[v]))
            && (s.fates[i].Completed? ==> i in Sends(s.log))
            && (s.fates[i].Lost? ==> s.workers[s.fates[i].w].Failed?)
  {
    RunKeepsInvariant(n, k, states, events, m);
  }

  /** If every worker has ended and one of them never threw, every delivery was taken; each has an
      outcome except those dropped by throwing workers, at most one a worker. */
  lemma OneSurvivorTakesAll(n: nat, k: nat, states: seq<Lane>, events: seq<Event>, m: nat, survivor: nat)
    requires IsRun(n, k, states, events) && m < |states|
    requires AllEnded(states[m]) && survivor < k && survivor < |states[m].workers| && states[m].workers[survivor].Done?
    ensures states[m].next == n == |states[m].fates|
    ensures forall i | 0 <= i < n :: states[m].fates[i].Completed? || states[m].fates[i].Lost?
    ensures LossesMatch(states[m])
  {
    RunKeepsInvariant(n, k, states, events, m);
  }

  /** The lane's promise is `Promise.all` over the workers. */
  predicate Resolves(s: Lane) {
    forall w | 0 <= w < |s.workers| :: s.workers[w].Done?
  }

  predicate Rejects(s: Lane) {
    exists w :: 0 <= w < |s.workers| && s.workers[w].Failed?
  }

  predicate AllCompleted(s: Lane) {
    s.next == s.n == |s.fates| && forall i | 0 <= i < s.n :: s.fates[i].Completed?
  }

  lemma StepNeedsWorker(n: nat, k: nat, states: seq<Lane>, events: seq<Event>)
    requires IsRun(n, k, states, events) && events != []
    ensures k > 0
  {
    assert events[0].w < |states[0].workers|;
  }

  /** A lane that resolves has processed every claimed delivery, except that with no workers at all
      it resolves at once and leaves them claimed. */
  lemma ResolvedMeansCompleted(n: nat, k: nat, states: seq<Lane>, events: seq<Event>, m: nat)
    requires IsRun(n, k, states, events) && m < |states| && Resolves(states[m])
    ensures AllCompleted(states[m]) <==> (k > 0 || n == 0)
  {
    RunKeepsInvariant(n, k, states, events, m);
    var s := states[m];
    if k > 0 {
      assert s.workers[0].Done?;
    } else if events != [] {
      StepNeedsWorker(n, k, states, events);
    }
  }

  predicate Throws(e: Event) {
    e.Threw? || e.CallbackThrew?
  }

  lemma {:induction false} NobodyFailedYet(n: nat, k: nat)
    ensures !Rejects(Begun(n, k))
  {
    if k > 0 {
      NobodyFailedYet(n, k - 1);
      var s := Begun(n, k - 1);
      assert forall w | 0 <= w < k - 1 :: !s.workers[w].Failed?;
    }
  }

  /** A worker that has ended stays as it is, and one fails by throwing only. */
  lemma StepEndsOne(s: Lane, e: Event, v: nat)
    requires Enabled(s, e) && v < |s.workers|
    ensures |Next(s, e).workers| == |s.workers|
    ensures Ended(s.workers[v]) ==> Next(s, e).workers[v] == s.workers[v]
    ensures Next(s, e).workers[v].Failed? <==> s.workers[v].Failed? || (Throws(e) && e.w == v)
    ensures v != e.w ==> Next(s, e).workers[v] == s.workers[v]
  {
  }

  /** The workers that have failed are those named by a throwing step. */
  lemma {:induction false} FailedIffThrew(n: nat, k: nat, states: seq<Lane>, events: seq<Event>, m: nat, v: nat)
    requires IsRun(n, k, states, events) && m < |states| && v < k
    ensures |states[m].workers| == k
    ensures states[m].workers[v].Failed? <==> exists j :: 0 <= j < m && Throws(events[j]) && events[j].w == v
  {
    hide Next, Enabled;
    if m == 0 {
      NobodyFailedYet(n, k);
    } else {
      FailedIffThrew(n, k, states, events, m - 1, v);
      StepEndsOne(states[m - 1], events[m - 1], v);
    }
  }

  lemma {:induction false} EndedStays(n: nat, k: nat, states: seq<Lane>, events: seq<Event>, m: nat, l: nat, v: nat)
    requires IsRun(n, k, states, events) && m <= l < |states| && v < |states[m].workers| && Ended(states[m].workers[v])
    ensures v < |states[l].workers| && states[l].workers[v] == states[m].workers[v]
  {
    hide Next, Enabled;
    if m < l {
      EndedStays(n, k, states, events, m, l - 1, v);
      StepEndsOne(states[l - 1], events[l - 1], v);
    }
  }

  // ----- Nothing gets stuck

  /** What ends the wait of worker `w` when its slot is free and no pause is in force. */
  function Ready(s: Lane, w: nat): (e: Event)
    requires w < |s.workers| && !Ended(s.workers[w])
    ensures !Throws(e) && e.w == w
  {
    match s.workers[w]
    case Reserving(_) => Reserved(w, 0)
    case Sleeping(_) => Woke(w)
    case CheckingPause(_) => PauseAnswered(w, 0)
    case PauseSleeping(_) => Woke(w)
    case Sending(_) => Processed(w)
  }

  /** How many such waits a worker still has with the delivery in hand, at most. */
  function Waits(p: Phase): nat {
    match p
    case Reserving(_) => 4
    case Sleeping(_) => 3
    case PauseSleeping(_) => 3
    case CheckingPause(_) => 2
    case Sending(_) => 1
    case _ => 0
  }

  function AllWaits(ws: seq<Phase>): nat {
    if ws == [] then 0 else AllWaits(ws[..|ws| - 1]) + Waits(ws[|ws| - 1])
  }

  lemma {:induction false} WaitsUpdated(ws: seq<Phase>, w: nat, p: Phase)
    requires w < |ws|
    ensures AllWaits(ws[w := p]) + Waits(ws[w]) == AllWaits(ws) + Waits(p)
  {
    hide Waits;
    var last := |ws| - 1;
    if w < last {
      WaitsUpdated(ws[..last], w, p);
      assert ws[w := p][..last] == ws[..last][w := p];
    } else {
      assert ws[w := p][..last] == ws[..last];
    }
  }

  /** A worker that has not ended can always go on, and comes closer to its end. */
  lemma ReadyMovesOn(s: Lane, w: nat)
    requires w < |s.workers| && !Ended(s.workers[w]) && s.next <= s.n
    ensures Enabled(s, Ready(s, w))
    ensures var s' := Next(s, Ready(s, w));
            s'.n == s.n && s'.next <= s.n && |s'.workers| == |s.workers|
            && 5 * (s.n - s'.next) + AllWaits(s'.workers) < 5 * (s.n - s.next) + AllWaits(s.workers)
  {
    hide AllWaits;
    var s' := Next(s, Ready(s, w));
    WaitsUpdated(s.workers, w, s'.workers[w]);
    assert s'.workers == s.workers[w := s'.workers[w]];
  }

  /** Every run can be finished without anything more being thrown: the lane never comes to a state
      in which a worker waits for what cannot happen. */
  lemma {:induction false} CanFinish(n: nat, k: nat, states: seq<Lane>, events: seq<Event>)
    returns (run: seq<Lane>, more: seq<Event>)
    requires IsRun(n, k, states, events)
    ensures IsRun(n, k, run, events + more) && states <= run
    ensures AllEnded(run[|run| - 1]) && forall j | 0 <= j < |more| :: !Throws(more[j])
    decreases var s := states[|states| - 1]; 5 * (s.n - s.next) + AllWaits(s.workers)
  {
    hide Ended, Enabled, Next, AllWaits, Ready, Throws;
    var s := states[|events|];
    RunKeepsInvariant(n, k, states, events, |events|);
    BoundsKept(s);
    if w: nat :| w < |s.workers| && !Ended(s.workers[w]) {
      var e := Ready(s, w);
      ReadyMovesOn(s, w);
      var rest;
      run, rest := CanFinish(n, k, states + [Next(s, e)], events + [e]);
      more := [e] + rest;
      assert events + more == events + [e] + rest;
    } else {
      run, more := states, [];
      assert events + more == events;
    }
  }

  lemma BoundsKept(s: Lane)
    requires Invariant(s)
    ensures s.next <= s.n
  {
  }

  /** So a lane with a worker in which nothing has been thrown can still complete every delivery. */
  lemma CanComplete(n: nat, k: nat, states: seq<Lane>, events: seq<Event>)
    returns (run: seq<Lane>, more: seq<Event>)
    requires IsRun(n, k, states, events) && k > 0
    requires forall j | 0 <= j < |events| :: !Throws(events[j])
    ensures IsRun(n, k, run, events + more) && states <= run
    ensures AllCompleted(run[|run| - 1]) && Resolves(run[|run| - 1])
  {
    hide Invariant, Next, Enabled, Throws, AllCompleted;
    run, more := CanFinish(n, k, states, events);
    var m := |run| - 1;
    RunKeepsInvariant(n, k, run, events + more, m);
    forall v: nat | v < k ensures !run[m].workers[v].Failed? {
      FailedIffThrew(n, k, run, events + more, m, v);
    }
    ResolvedMeansCompleted(n, k, run, events + more, m);
  }

  /** Whether the lane's promise has an outcome. */
  predicate Settled(s: Lane) {
    Resolves(s) || Rejects(s)
  }

  /** The lane is settled exactly when all its workers have ended or a step has thrown; without a
      throw it is never rejected. */
  lemma SettledIff(n: nat, k: nat, states: seq<Lane>, events: seq<Event>, m: nat)
    requires IsRun(n, k, states, events) && m < |states|
    ensures Rejects(states[m]) <==> exists j :: 0 <= j < m && Throws(events[j])
    ensures Settled(states[m]) <==> AllEnded(states[m]) || exists j :: 0 <= j < m && Throws(events[j])
  {
    RunKeepsInvariant(n, k, states, events, m);
    forall v: nat | v < k
      ensures states[m].workers[v].Failed? <==> exists j :: 0 <= j < m && Throws(events[j]) && events[j].w == v
    {
      FailedIffThrew(n, k, states, events, m, v);
    }
    forall j | 0 <= j < m && Throws(events[j]) ensures events[j].w < k && states[m].workers[events[j].w].Failed? {
      RunKeepsInvariant(n, k, states, events, j);
      assert Enabled(states[j], events[j]);
    }
  }

  /** The first worker to fail does so at step `j`, while another has not ended. */
  predicate FailsBesideOthers(states: seq<Lane>, events: seq<Event>, j: nat)
    requires |states| == |events| + 1 && j < |events|
  {
    && Throws(events[j]) && (forall i | 0 <= i < j :: !Throws(events[i]))
    && exists v :: 0 <= v < |states[j].workers| && v != events[j].w && !Ended(states[j].workers[v])
  }

  lemma {:induction false} FirstThrow(events: seq<Event>, m: nat) returns (j: nat)
    requires m <= |events| && exists i :: 0 <= i < m && Throws(events[i])
    ensures j < m && Throws(events[j]) && forall i | 0 <= i < j :: !Throws(events[i])
  {
    if exists i :: 0 <= i < m - 1 && Throws(events[i]) {
      j := FirstThrow(events, m - 1);
    } else {
      j := m - 1;
    }
  }

  lemma LiveAtFirstThrow(n: nat, k: nat, states: seq<Lane>, events: seq<Event>, m: nat) returns (j: nat)
    requires IsRun(n, k, states, events) && m < |states| && Settled(states[m]) && !AllEnded(states[m])
    ensures j < m && FailsBesideOthers(states, events, j)
  {
    SettledIff(n, k, states, events, m);
    j := FirstThrow(events, m);
    var v :| 0 <= v < |states[m].workers| && !Ended(states[m].workers[v]);
    RunKeepsInvariant(n, k, states, events, m);
    RunKeepsInvariant(n, k, states, events, j);
    if Ended(states[j].workers[v]) {
      EndedStays(n, k, states, events, j, m, v);
    }
    if v == events[j].w {
      FailedIffThrew(n, k, states, events, m, v);
    }
  }

  lemma SettlesAtFirstThrow(n: nat, k: nat, states: seq<Lane>, events: seq<Event>, j: nat)
    requires IsRun(n, k, states, events) && j < |events| && FailsBesideOthers(states, events, j)
    ensures Settled(states[j + 1]) && !AllEnded(states[j + 1])
  {
    hide Next, Enabled;
    var v :| 0 <= v < |states[j].workers| && v != events[j].w && !Ended(states[j].workers[v]);
    StepEndsOne(states[j], events[j], v);
    SettledIff(n, k, states, events, j + 1);
  }

  /** The lane's promise settles with a worker still at work exactly when the first worker to fail
      does so while another has not ended. */
  lemma SettledEarlyIff(n: nat, k: nat, states: seq<Lane>, events: seq<Event>)
    requires IsRun(n, k, states, events)
    ensures (exists m :: 0 <= m < |states| && Settled(states[m]) && !AllEnded(states[m]))
            <==> (exists j :: 0 <= j < |events| && FailsBesideOthers(states, events, j))
  {
    hide Next, Enabled, Settled, AllEnded, FailsBesideOthers;
    if exists m :: 0 <= m < |states| && Settled(states[m]) && !AllEnded(states[m]) {
      var m :| 0 <= m < |states| && Settled(states[m]) && !AllEnded(states[m]);
      var j := LiveAtFirstThrow(n, k, states, events, m);
    }
    if exists j :: 0 <= j < |events| && FailsBesideOthers(states, events, j) {
      var j :| 0 <= j < |events| && FailsBesideOthers(states, events, j);
      SettlesAtFirstThrow(n, k, states, events, j);
    }
  }

  /** The lane's promise can be rejected while another worker is still sending. */
  lemma RejectedWhileSending() returns (states: seq<Lane>, events: seq<Event>)
    ensures IsRun(2, 2, states, events) && |events| > 0
    ensures Rejects(states[1]) && |states[|events|].workers| == 2 && states[|events|].workers[1] == Sending(1)
  {
    var s0 := Begun(2, 2);
    assert s0.workers == [Reserving(0), Reserving(1)];
    events := [Threw(0), Reserved(1, 0), PauseAnswered(1, 0)];
    var s1 := Next(s0, events[0]);
    assert s1.workers == [Failed, Reserving(1)];
    var s2 := Next(s1, events[1]);
    assert s2.workers == [Failed, CheckingPause(1)];
    states := [s0, s1, s2, Next(s2, events[2])];
    assert s1.workers[0].Failed?;
  }

  // ----- The object

  /** The lane's shared state; each method is one worker's code between two awaits. */
  class Workers {
    const n: nat
    var next: nat
    var phases: seq<Phase>
    ghost var log: seq<Action>
    ghost var fates: seq<Fate>

    ghost function State(): Lane
      reads this
    {
      Lane(n, next, phases, log, fates)
    }

    constructor (n: nat)
      ensures State() == Begun(n, 0)
    {
      this.n := n;
      next, phases, log, fates := 0, [], [], [];
    }

    /** The head of the loop. */
    method TakeNext(w: nat)
      requires w < |phases|
      modifies this
      ensures State() == Take(old(State()), w)
    {
      if next < n {
        var delivery := next;
        next := next + 1;
        log := log + [Took(w, delivery)];
        fates := fates + [Held(w)];
        phases := phases[w := Reserving(delivery)];
      } else {
        phases := phases[w := Done];
      }
    }

    method StartAll(count: nat)
      requires State() == Begun(n, 0)
      modifies this
      ensures State() == Begun(n, count)
    {
      for k := 0 to count
        invariant State() == Begun(n, k)
      {
        phases := phases + [Done];
        TakeNext(k);
      }
    }

    method OnReserved(w: nat, delay: nat)
      requires Enabled(State(), Reserved(w, delay))
      modifies this
      ensures State() == Next(old(State()), Reserved(w, delay))
    {
      var i := phases[w].i;
      log := log + [SlotReserved(w, delay)];
      if delay > 0 {
        phases := phases[w := Sleeping(i)];
      } else {
        phases := phases[w := CheckingPause(i)];
      }
    }

    method OnWoke(w: nat)
      requires Enabled(State(), Woke(w))
      modifies this
      ensures State() == Next(old(State()), Woke(w))
    {
      log := log + [Slept(w)];
      phases := phases[w := CheckingPause(phases[w].i)];
    }

    method OnPauseAnswered(w: nat, remaining: nat)
      requires Enabled(State(), PauseAnswered(w, remaining))
      modifies this
      ensures State() == Next(old(State()), PauseAnswered(w, remaining))
    {
      var i := phases[w].i;
      if remaining > 0 {
        log := log + [PauseRead(w, remaining)];
        phases := phases[w := PauseSleeping(i)];
      } else {
        log := log + [PauseRead(w, 0), Sent(w, i)];
        phases := phases[w := Sending(i)];
      }
    }

    /** The delivery has an outcome; the worker loops, unless its callback threw. */
    method OnProcessed(w: nat, callbackThrew: bool)
      requires Enabled(State(), Processed(w))
      modifies this
      ensures State() == Next(old(State()), if callbackThrew then CallbackThrew(w) else Processed(w))
    {
      var i := phases[w].i;
      if i < |fates| {
        fates := fates[i := Completed(w)];
      }
      if callbackThrew {
        phases := phases[w := Failed];
      } else {
        TakeNext(w);
      }
    }

    method OnThrew(w: nat)
      requires Enabled(State(), Threw(w))
      modifies this
      ensures State() == Next(old(State()), Threw(w))
    {
      ghost var i := Holding(phases[w]);
      if i < |fates| {
        fates := fates[i := Lost(w)];
      }
      phases := phases[w := Failed];
    }
  }
}
