/** Any number of APPLY runs on any number of wallets, interleaved with other writers.

    A run is three database steps: read the snapshot and plan, look the key up, then swap and
    audit in one commit. Between them anything else may commit. */
module ReconciliationProtocol {
  import opened Results
  import opened WalletReconciliation

  /** Where a run stands. `seen` is how many audit rows were committed when it read its snapshot,
      `looked` how many when it looked its key up. */
  datatype RunState =
    | Started(input: ReconcileInput)
    | Planned(snapshot: WalletSnapshot, plan: ReconciliationPlan, seen: nat)
    | KeyFree(snapshot: WalletSnapshot, plan: ReconciliationPlan, seen: nat, looked: nat)
    | Done(result: Result<ApplyOutcome, ReconcileError>)
    | Crashed

  datatype System = System(db: Db, runs: seq<RunState>)

  /** What the other writers of the wallet tables keep to. */
  datatype Discipline =
    | NeverLower // versions never go down, wallets are not removed
    | Versioned  // and a writer that touches a wallet raises its version
    | Posting    // and moves cache and ledger by the same amount

  ghost predicate OtherWrite(d: Discipline, before: Db, after: Db) {
    && after.audits == before.audits
    && (forall id | id in before.wallets ::
          id in after.wallets && before.wallets[id].version <= after.wallets[id].version)
    && (d != NeverLower ==> forall id | id in before.wallets ::
          after.wallets[id] == before.wallets[id] || before.wallets[id].version < after.wallets[id].version)
    && (d == Posting ==> forall id | id in before.wallets ::
          Drift(after.wallets[id]) == Drift(before.wallets[id]))
  }

  /** The unexplained part of a cached balance. */
  function Drift(w: Wallet): int {
    w.balanceVnd - LedgerSum(w.ledger)
  }

  function Plan(db: Db, input: ReconcileInput): RunState {
    if ValidateApplyInput(input).Some? then Done(Err(ValidateApplyInput(input).value))
    else
      match ReadSnapshot(db, input.walletId.value)
      case None => Done(Err(WalletNotFound))
      case Some(snapshot) =>
        match BuildReconciliationPlan(snapshot, input)
        case Err(e) => Done(Err(e))
        case Ok(plan) => Planned(snapshot, plan, |db.audits|)
  }

  /** The lookup may return any committed row with the key. */
  ghost predicate LooksUp(db: Db, r: RunState, r': RunState) {
    r.Planned? &&
    if HasKey(db.audits, r.plan.idempotencyKey) then
      exists i :: 0 <= i < |db.audits| && db.audits[i].idempotencyKey == r.plan.idempotencyKey
        && r' == Done(if SameCorrection(db.audits[i], r.plan) then Ok(Idempotent(r.plan)) else Err(KeyReused))
    else r' == KeyFree(r.snapshot, r.plan, r.seen, |db.audits|)
  }

  datatype Event = Begin(input: ReconcileInput) | Snap(i: nat) | Lookup(i: nat) | Swap(i: nat) | Crash(i: nat) | Other

  ghost predicate Step(d: Discipline, s: System, e: Event, s': System) {
    match e
    case Begin(input) => s' == System(s.db, s.runs + [Started(input)])
    case Snap(i) => i < |s.runs| && s.runs[i].Started? && s' == System(s.db, s.runs[i := Plan(s.db, s.runs[i].input)])
    case Lookup(i) => i < |s.runs| && |s'.runs| == |s.runs| && LooksUp(s.db, s.runs[i], s'.runs[i])
                      && s' == System(s.db, s.runs[i := s'.runs[i]])
    case Swap(i) =>
      i < |s.runs| && s.runs[i].KeyFree? &&
      (match Commit(s.db, s.runs[i].plan, s.runs[i].snapshot)
       case Err(e) => s' == System(s.db, s.runs[i := Done(Err(e))])
       case Ok(db) => s' == System(db, s.runs[i := Done(Ok(Applied(s.runs[i].plan)))]))
    case Crash(i) => i < |s.runs| && s' == System(s.db, s.runs[i := Crashed])
    case Other => OtherWrite(d, s.db, s'.db) && s'.runs == s.runs
  }

  /** What the disciplines say of a writer that changes one wallet. */
  lemma OneWalletWritten(db: Db, id: string, w: Wallet)
    requires id in db.wallets
    ensures var was, after := db.wallets[id], db.(wallets := db.wallets[id := w]);
            && (OtherWrite(NeverLower, db, after) <==> w.version >= was.version)
            && (OtherWrite(Versioned, db, after) <==> w == was || w.version > was.version)
            && (OtherWrite(Posting, db, after) <==>
                  (w == was || w.version > was.version)
                  && w.balanceVnd - was.balanceVnd == LedgerSum(w.ledger) - LedgerSum(was.ledger))
  {
    var after := db.(wallets := db.wallets[id := w]);
    assert id in after.wallets && after.wallets[id] == w;
    assert forall other | other in db.wallets && other != id :: after.wallets[other] == db.wallets[other];
  }

  ghost predicate IsRun(d: Discipline, states: seq<System>, events: seq<Event>) {
    && |states| == |events| + 1
    && forall k | 0 <= k < |events| :: Step(d, states[k], events[k], states[k + 1])
  }

  // ----- At most one correction a wallet and key

  ghost predicate OnePerWalletAndKey(db: Db) {
    forall i, j | 0 <= i < j < |db.audits| ::
      !(db.audits[i].targetId == db.audits[j].targetId && db.audits[i].idempotencyKey == db.audits[j].idempotencyKey)
  }

  ghost predicate AuditsLocated(db: Db) {
    forall i | 0 <= i < |db.audits| :: db.audits[i].targetId in db.wallets
  }

  /** What a run that has read its snapshot may rely on. */
  ghost predicate RunInvariant(db: Db, r: RunState) {
    r.Planned? || r.KeyFree? ==>
      && r.plan.walletId == r.snapshot.id && r.snapshot.id in db.wallets
      && r.plan.beforeVersion == r.snapshot.version <= db.wallets[r.snapshot.id].version
      && r.plan.amountVnd == r.plan.beforeCacheVnd - r.plan.afterCacheVnd > 0
      && r.plan.beforeCacheVnd == r.snapshot.balanceVnd
      && r.plan.afterCacheVnd == r.plan.afterLedgerVnd == r.snapshot.ledgerVnd
      && r.seen <= |db.audits|
      && (forall i | 0 <= i < |db.audits| && db.audits[i].targetId == r.snapshot.id ::
            db.audits[i].expectedVersion < r.snapshot.version <==> i < r.seen)
      // a row with this wallet and key committed after the lookup has moved the version on
      && (r.KeyFree? ==>
            forall i | 0 <= i < |db.audits| && db.audits[i].targetId == r.snapshot.id
                && db.audits[i].idempotencyKey == r.plan.idempotencyKey ::
              r.snapshot.version < db.wallets[r.snapshot.id].version)
  }

  ghost predicate Invariant(s: System) {
    && OnePerWalletAndKey(s.db) && AuditsLocated(s.db) && AuditsBehind(s.db)
    && forall i | 0 <= i < |s.runs| :: RunInvariant(s.db, s.runs[i])
  }

  /** A start: nothing running, and a history that satisfies the claim. */
  ghost predicate IsStart(s: System) {
    s.runs == [] && OnePerWalletAndKey(s.db) && AuditsLocated(s.db) && AuditsBehind(s.db)
  }

  lemma PlanInvariant(db: Db, input: ReconcileInput)
    requires AuditsLocated(db) && AuditsBehind(db)
    ensures RunInvariant(db, Plan(db, input))
  {
  }

  lemma CommitKeepsDb(db: Db, r: RunState)
    requires OnePerWalletAndKey(db) && AuditsLocated(db) && AuditsBehind(db)
    requires r.KeyFree? && RunInvariant(db, r) && Commit(db, r.plan, r.snapshot).Ok?
    ensures var db' := Commit(db, r.plan, r.snapshot).value;
            OnePerWalletAndKey(db') && AuditsLocated(db') && AuditsBehind(db')
  {
    var db' := Commit(db, r.plan, r.snapshot).value;
    var n := |db.audits|;
    forall i, j | 0 <= i < j < |db'.audits|
      ensures !(db'.audits[i].targetId == db'.audits[j].targetId
                && db'.audits[i].idempotencyKey == db'.audits[j].idempotencyKey)
    {
      assert db'.audits[i] == db.audits[i];
      if j < n {
        assert db'.audits[j] == db.audits[j];
      }
    }
  }

  lemma CommitKeepsRun(db: Db, r: RunState, other: RunState)
    requires AuditsLocated(db)
    requires r.KeyFree? && RunInvariant(db, r) && RunInvariant(db, other) && Commit(db, r.plan, r.snapshot).Ok?
    ensures RunInvariant(Commit(db, r.plan, r.snapshot).value, other)
  {
  }

  lemma StepKeepsInvariant(d: Discipline, s: System, e: Event, s': System)
    requires Invariant(s) && Step(d, s, e, s')
    ensures Invariant(s')
  {
    match e
    case Begin(input) =>
    case Snap(i) => PlanInvariant(s.db, s.runs[i].input);
    case Lookup(i) =>
    case Swap(i) =>
      var r := s.runs[i];
      if Commit(s.db, r.plan, r.snapshot).Ok? {
        CommitKeepsDb(s.db, r);
        forall k | 0 <= k < |s.runs| ensures RunInvariant(s'.db, s'.runs[k]) {
          if k != i {
            CommitKeepsRun(s.db, r, s.runs[k]);
          }
        }
      }
    case Crash(i) =>
    case Other =>
      forall k | 0 <= k < |s.runs| ensures RunInvariant(s'.db, s'.runs[k]) {
        assert RunInvariant(s.db, s.runs[k]);
      }
  }

  lemma {:induction false} RunKeepsInvariant(d: Discipline, states: seq<System>, events: seq<Event>, n: nat)
    requires IsRun(d, states, events) && IsStart(states[0]) && n < |states|
    ensures Invariant(states[n])
  {
    if n > 0 {
      RunKeepsInvariant(d, states, events, n - 1);
      StepKeepsInvariant(d, states[n - 1], events[n - 1], states[n]);
    }
  }

  /** What a run is told at each of its steps: on reading its wallet, what the command must meet; on looking
      its key up, whether a row that was found is of the same correction; on swapping, whether the double entry
      is active, and whether the wallet is still as it was read. */
  lemma StepTells(d: Discipline, s: System, e: Event, s': System)
    requires Invariant(s) && Step(d, s, e, s')
    ensures e.Snap? ==>
              var input, r := s.runs[e.i].input, s'.runs[e.i];
              && (r.Planned? <==> IsMet(s.db, input)) && (!r.Planned? ==> r.Done? && r.result.Err?)
              && (r == Done(Err(WalletNotFound)) <==>
                  ValidateApplyInput(input).None? && input.walletId.value !in s.db.wallets)
    ensures e.Lookup? ==>
              var plan, r := s.runs[e.i].plan, s'.runs[e.i];
              && (r.KeyFree? <==> forall row | row in s.db.audits :: row.idempotencyKey != plan.idempotencyKey)
              && (!r.KeyFree? ==>
                    exists row :: row in s.db.audits && row.idempotencyKey == plan.idempotencyKey
                      && r == Done(if row.targetId == plan.walletId && row.amountVnd == plan.amountVnd
                                      && row.strategy == "CACHE_REPAIR" then Ok(Idempotent(plan)) else Err(KeyReused)))
    ensures e.Swap? ==>
              var plan, read := s.runs[e.i].plan, s.runs[e.i].snapshot;
              var stands := read.id in s.db.wallets && s.db.wallets[read.id].version == read.version
                            && s.db.wallets[read.id].balanceVnd == read.balanceVnd;
              && s'.runs[e.i] == Done(if plan.doubleEntryReady then Err(DoubleEntryActive)
                                      else if stands then Ok(Applied(plan)) else Err(WalletChanged))
              && (s'.db == s.db <==> plan.doubleEntryReady || !stands)
  {
    match e
    case Snap(i) => hide LedgerSum, ChainBreaks;
    case Lookup(i) =>
      var plan := s.runs[i].plan;
      if HasKey(s.db.audits, plan.idempotencyKey) {
        var j :| 0 <= j < |s.db.audits| && s.db.audits[j].idempotencyKey == plan.idempotencyKey
            && s'.runs[i] == Done(if SameCorrection(s.db.audits[j], plan) then Ok(Idempotent(plan))
                                  else Err(KeyReused));
        assert s.db.audits[j] in s.db.audits;
      }
    case Swap(i) =>
      assert RunInvariant(s.db, s.runs[i]);
      var r := s.runs[i];
      if Commit(s.db, r.plan, r.snapshot).Ok? {
        assert |s'.db.audits| == |s.db.audits| + 1;
      }
    case _ =>
  }

  /** Over every interleaving with writers that never lower a version, a wallet and a key have at
      most one audited correction. */
  lemma AtMostOneCorrection(states: seq<System>, events: seq<Event>, n: nat, i: nat, j: nat)
    requires IsRun(NeverLower, states, events) && IsStart(states[0]) && n < |states|
    requires i < |states[n].db.audits| && j < |states[n].db.audits|
    requires states[n].db.audits[i].targetId == states[n].db.audits[j].targetId
    requires states[n].db.audits[i].idempotencyKey == states[n].db.audits[j].idempotencyKey
    ensures i == j
  {
    RunKeepsInvariant(NeverLower, states, events, n);
  }

  /** A key on its own is unique exactly where it was not committed for two wallets. */
  lemma KeyUniqueIffOneWallet(states: seq<System>, events: seq<Event>, n: nat, key: string)
    requires IsRun(NeverLower, states, events) && IsStart(states[0]) && n < |states|
    ensures var audits := states[n].db.audits;
            (forall i, j | 0 <= i < |audits| && 0 <= j < |audits|
             && audits[i].idempotencyKey == key == audits[j].idempotencyKey :: i == j)
            <==> (forall i, j | 0 <= i < |audits| && 0 <= j < |audits|
                  && audits[i].idempotencyKey == key == audits[j].idempotencyKey ::
                    audits[i].targetId == audits[j].targetId)
  {
    RunKeepsInvariant(NeverLower, states, events, n);
  }

  // ----- When a key is corrected twice

  /** Two audited corrections carry the key. */
  ghost predicate KeyRepeated(audits: seq<AuditRow>, key: string) {
    exists i, j :: 0 <= i < j < |audits| && audits[i].idempotencyKey == key == audits[j].idempotencyKey
  }

  /** A lookup that found the key free did so among the rows it saw. */
  ghost predicate LookedUp(db: Db, r: RunState) {
    r.KeyFree? ==> r.looked <= |db.audits| && !HasKey(db.audits[..r.looked], r.plan.idempotencyKey)
  }

  ghost predicate AllLookedUp(s: System) {
    forall i | 0 <= i < |s.runs| :: LookedUp(s.db, s.runs[i])
  }

  lemma StepExtendsAudits(d: Discipline, s: System, e: Event, s': System)
    requires Step(d, s, e, s')
    ensures s.db.audits <= s'.db.audits
    ensures s'.db.audits == s.db.audits || (Commits(s, e) && s'.db.audits == s.db.audits + [AuditOf(s.runs[e.i].plan)])
  {
  }

  lemma StepKeepsLookups(d: Discipline, s: System, e: Event, s': System)
    requires Step(d, s, e, s') && AllLookedUp(s)
    ensures AllLookedUp(s')
  {
    StepExtendsAudits(d, s, e, s');
    forall k | 0 <= k < |s'.runs| ensures LookedUp(s'.db, s'.runs[k]) {
      if k < |s.runs| {
        assert LookedUp(s.db, s.runs[k]);
        var r := s'.runs[k];
        if r.KeyFree? {
          assert r.looked <= |s.db.audits|;
          assert s'.db.audits[..r.looked] == s.db.audits[..r.looked];
          assert s.db.audits[..|s.db.audits|] == s.db.audits;
        }
      }
    }
  }

  lemma {:induction false} RunKeepsLookups(d: Discipline, states: seq<System>, events: seq<Event>, n: nat)
    requires IsRun(d, states, events) && states[0].runs == [] && n < |states|
    ensures AllLookedUp(states[n])
  {
    if n > 0 {
      RunKeepsLookups(d, states, events, n - 1);
      StepKeepsLookups(d, states[n - 1], events[n - 1], states[n]);
    }
  }

  /** The step is a swap that succeeds. */
  ghost predicate Commits(s: System, e: Event) {
    e.Swap? && e.i < |s.runs| && s.runs[e.i].KeyFree? && Commit(s.db, s.runs[e.i].plan, s.runs[e.i].snapshot).Ok?
  }

  /** The step commits a correction whose run looked its key up before a row with that key was
      committed. */
  ghost predicate LosesRace(s: System, e: Event, key: string) {
    && Commits(s, e) && s.runs[e.i].plan.idempotencyKey == key
    && exists i :: s.runs[e.i].looked <= i < |s.db.audits| && s.db.audits[i].idempotencyKey == key
  }

  /** `looked` is what it says: the run looked its key up at an earlier step, when that many rows
      were committed, and has not moved since. */
  lemma {:induction false} LookupRecorded(d: Discipline, states: seq<System>, events: seq<Event>, n: nat, run: nat)
    returns (l: nat)
    requires IsRun(d, states, events) && states[0].runs == [] && n < |states|
    requires run < |states[n].runs| && states[n].runs[run].KeyFree?
    ensures l < n && events[l] == Lookup(run) && |states[l].db.audits| == states[n].runs[run].looked
    ensures forall m | l < m <= n :: run < |states[m].runs| && states[m].runs[run] == states[n].runs[run]
  {
    assert Step(d, states[n - 1], events[n - 1], states[n]);
    if events[n - 1] == Lookup(run) {
      l := n - 1;
    } else {
      l := LookupRecorded(d, states, events, n - 1, run);
    }
  }

  /** A run that has planned read its snapshot at an earlier step, for the command it was begun with. */
  lemma {:induction false} SnapshotRecorded(d: Discipline, states: seq<System>, events: seq<Event>, n: nat, run: nat)
    returns (b: nat, input: ReconcileInput)
    requires IsRun(d, states, events) && states[0].runs == [] && n < |states|
    requires run < |states[n].runs| && (states[n].runs[run].Planned? || states[n].runs[run].KeyFree?)
    ensures b < n && events[b] == Snap(run) && run < |states[b].runs| && states[b].runs[run] == Started(input)
    ensures var r := states[n].runs[run]; Plan(states[b].db, input) == Planned(r.snapshot, r.plan, r.seen)
  {
    assert Step(d, states[n - 1], events[n - 1], states[n]);
    if events[n - 1] == Snap(run) {
      b, input := n - 1, states[n - 1].runs[run].input;
    } else {
      b, input := SnapshotRecorded(d, states, events, n - 1, run);
    }
  }

  lemma {:induction false} CommandRecorded(d: Discipline, states: seq<System>, events: seq<Event>, n: nat, run: nat)
    returns (a: nat)
    requires IsRun(d, states, events) && states[0].runs == [] && n < |states|
    requires run < |states[n].runs| && states[n].runs[run].Started?
    ensures a < n && events[a] == Begin(states[n].runs[run].input) && |states[a].runs| == run
  {
    assert Step(d, states[n - 1], events[n - 1], states[n]);
    if events[n - 1].Begin? && |states[n - 1].runs| == run {
      a := n - 1;
    } else {
      a := CommandRecorded(d, states, events, n - 1, run);
    }
  }

  /** At every successful swap of every run: one row is added, which records the command the run was
      begun with and the wallet as the run read it; of that wallet, the version and the cached
      balance are still the same. */
  lemma AuditRecordsCommand(d: Discipline, states: seq<System>, events: seq<Event>, n: nat, run: nat,
                            plan: ReconciliationPlan)
    returns (a: nat, b: nat)
    requires IsRun(d, states, events) && states[0].runs == [] && n < |events|
    requires events[n] == Swap(run) && states[n + 1].runs[run] == Done(Ok(Applied(plan)))
    ensures a < b < n && events[a].Begin? && |states[a].runs| == run && events[b] == Snap(run)
    ensures plan.walletId in states[b].db.wallets && plan.walletId in states[n].db.wallets
    ensures var read, was := states[b].db.wallets[plan.walletId], states[n].db.wallets[plan.walletId];
            && states[n + 1].db.audits == states[n].db.audits + [AuditOf(plan)]
            && AuditsCorrection(AuditOf(plan), plan.walletId, read, events[a].input)
            && was.version == read.version && was.balanceVnd == read.balanceVnd
  {
    assert Step(d, states[n], events[n], states[n + 1]);
    var input;
    b, input := SnapshotRecorded(d, states, events, n, run);
    a := CommandRecorded(d, states, events, b, run);
    PlanAudits(states[b].db, input);
  }

  /** Every row committed in a run repairs a cache: it takes off what stood above the ledger. */
  lemma {:induction false} AuditsBalance(d: Discipline, states: seq<System>, events: seq<Event>, n: nat, i: nat)
    requires IsRun(d, states, events) && IsStart(states[0]) && n < |states|
    requires |states[0].db.audits| <= i < |states[n].db.audits|
    ensures var row := states[n].db.audits[i];
            && row.amountVnd == row.beforeCacheVnd - row.afterCacheVnd > 0
            && row.strategy == "CACHE_REPAIR" && row.afterCacheVnd == row.ledgerVnd
  {
    assert n > 0;
    StepExtendsAudits(d, states[n - 1], events[n - 1], states[n]);
    if i < |states[n - 1].db.audits| {
      AuditsBalance(d, states, events, n - 1, i);
    } else {
      RunKeepsInvariant(d, states, events, n - 1);
      assert RunInvariant(states[n - 1].db, states[n - 1].runs[events[n - 1].i]);
    }
  }

  lemma OneMoreRow(audits: seq<AuditRow>, row: AuditRow, key: string)
    ensures KeyRepeated(audits + [row], key)
            <==> KeyRepeated(audits, key) || (HasKey(audits, key) && row.idempotencyKey == key)
  {
    var all := audits + [row];
    if KeyRepeated(audits, key) {
      var i, j :| 0 <= i < j < |audits| && audits[i].idempotencyKey == key == audits[j].idempotencyKey;
      assert all[i].idempotencyKey == key == all[j].idempotencyKey;
    }
    if HasKey(audits, key) && row.idempotencyKey == key {
      var i :| 0 <= i < |audits| && audits[i].idempotencyKey == key;
      assert all[i].idempotencyKey == key == all[|audits|].idempotencyKey;
    }
  }

  /** A step repeats a key exactly by losing the race for it. */
  lemma StepRepeatsIff(d: Discipline, s: System, e: Event, s': System, key: string)
    requires Step(d, s, e, s') && AllLookedUp(s)
    ensures KeyRepeated(s'.db.audits, key) <==> KeyRepeated(s.db.audits, key) || LosesRace(s, e, key)
  {
    StepExtendsAudits(d, s, e, s');
    if Commits(s, e) {
      var r := s.runs[e.i];
      assert LookedUp(s.db, r);
      OneMoreRow(s.db.audits, AuditOf(r.plan), key);
      if HasKey(s.db.audits, key) && r.plan.idempotencyKey == key {
        var i :| 0 <= i < |s.db.audits| && s.db.audits[i].idempotencyKey == key;
        assert i < r.looked ==> s.db.audits[..r.looked][i].idempotencyKey == key;
      }
    }
  }

  /** Over every run that starts without the key, two corrections come to carry it exactly when some
      run commits after looking the key up before an earlier row with it was committed. */
  lemma {:induction false} KeyRepeatedIff(d: Discipline, states: seq<System>, events: seq<Event>, n: nat, key: string)
    requires IsRun(d, states, events) && states[0].runs == [] && n < |states| && !HasKey(states[0].db.audits, key)
    ensures KeyRepeated(states[n].db.audits, key) <==> exists k :: 0 <= k < n && LosesRace(states[k], events[k], key)
  {
    hide LosesRace, Step, KeyRepeated, AllLookedUp;
    if n == 0 {
      NotRepeated(states[0].db.audits, key);
    } else {
      KeyRepeatedIff(d, states, events, n - 1, key);
      RunKeepsLookups(d, states, events, n - 1);
      StepRepeatsIff(d, states[n - 1], events[n - 1], states[n], key);
    }
  }

  lemma NotRepeated(audits: seq<AuditRow>, key: string)
    requires !HasKey(audits, key)
    ensures !KeyRepeated(audits, key)
  {
  }

  /** A run under way with the key. */
  predicate UnderWay(r: RunState, key: string) {
    match r
    case Started(input) => input.idempotencyKey == Some(key)
    case Planned(_, plan, _) => plan.idempotencyKey == key
    case KeyFree(_, plan, _, _) => plan.idempotencyKey == key
    case Done(_) => false
    case Crashed => false
  }

  /** No two runs with the key are under way together. */
  predicate NoOverlap(s: System, key: string) {
    forall i, j | 0 <= i < j < |s.runs| :: !(UnderWay(s.runs[i], key) && UnderWay(s.runs[j], key))
  }

  ghost predicate FreeMeansFree(s: System, key: string) {
    forall i | 0 <= i < |s.runs| && s.runs[i].KeyFree? && s.runs[i].plan.idempotencyKey == key ::
        !HasKey(s.db.audits, key)
  }

  lemma StepWithoutOverlap(d: Discipline, s: System, e: Event, s': System, key: string)
    requires Step(d, s, e, s') && NoOverlap(s, key) && FreeMeansFree(s, key)
    ensures FreeMeansFree(s', key) && (KeyRepeated(s'.db.audits, key) ==> KeyRepeated(s.db.audits, key))
  {
    StepExtendsAudits(d, s, e, s');
    if Commits(s, e) {
      var r := s.runs[e.i];
      OneMoreRow(s.db.audits, AuditOf(r.plan), key);
      forall i | 0 <= i < |s'.runs| && s'.runs[i].KeyFree? && s'.runs[i].plan.idempotencyKey == key
        ensures !HasKey(s'.db.audits, key)
      {
        assert UnderWay(s.runs[i], key) && i != e.i;
        assert UnderWay(r, key) <==> r.plan.idempotencyKey == key;
      }
    }
  }

  /** If no two runs with a key are ever under way together, and no row carries it at the start, the
      key alone is unique, whatever the wallets. */
  lemma {:induction false} KeyUniqueWithoutOverlap(d: Discipline, states: seq<System>, events: seq<Event>, n: nat,
                                                   key: string)
    requires IsRun(d, states, events) && states[0].runs == [] && n < |states| && !HasKey(states[0].db.audits, key)
    requires forall k | 0 <= k < n :: NoOverlap(states[k], key)
    ensures !KeyRepeated(states[n].db.audits, key) && FreeMeansFree(states[n], key)
  {
    hide Step, NoOverlap, KeyRepeated;
    if n == 0 {
      NotRepeated(states[0].db.audits, key);
    } else {
      KeyUniqueWithoutOverlap(d, states, events, n - 1, key);
      StepWithoutOverlap(d, states[n - 1], events[n - 1], states[n], key);
    }
  }

  // ----- Replay and idempotence under interleaving

  /** Once a command has been audited, no later run of it gets past the version check. */
  lemma ReplayNeverPlans(states: seq<System>, events: seq<Event>, n: nat, i: nat, input: ReconcileInput)
    requires IsRun(NeverLower, states, events) && IsStart(states[0]) && n < |states|
    requires i < |states[n].db.audits|
    requires input.walletId == Some(states[n].db.audits[i].targetId)
    requires input.expectedVersion == Some(states[n].db.audits[i].expectedVersion)
    ensures var r := Plan(states[n].db, input); r.Done? && r.result.Err?
  {
    RunKeepsInvariant(NeverLower, states, events, n);
  }

  /** An `idempotent` answer names a row of the same correction. It is at an older version than the
      run expects exactly when it was committed before the run read its snapshot. */
  lemma IdempotentDichotomy(states: seq<System>, events: seq<Event>, n: nat, run: nat, plan: ReconciliationPlan)
    requires IsRun(NeverLower, states, events) && IsStart(states[0]) && n < |events|
    requires events[n] == Lookup(run) && states[n + 1].runs[run] == Done(Ok(Idempotent(plan)))
    ensures states[n].runs[run].Planned? && states[n].runs[run].plan == plan
    ensures var db := states[n].db;
            exists i :: 0 <= i < |db.audits| && db.audits[i].idempotencyKey == plan.idempotencyKey
              && SameCorrection(db.audits[i], plan)
              && (db.audits[i].expectedVersion < plan.beforeVersion <==> i < states[n].runs[run].seen)
  {
    RunKeepsInvariant(NeverLower, states, events, n);
    assert Step(NeverLower, states[n], events[n], states[n + 1]);
    var db, r := states[n].db, states[n].runs[run];
    assert RunInvariant(db, r);
    var i :| 0 <= i < |db.audits| && db.audits[i].idempotencyKey == r.plan.idempotencyKey
        && SameCorrection(db.audits[i], r.plan);
  }

  // ----- The cache meets the ledger

  /** Under versioned writers, a run whose version still stands has the ledger sum right. */
  ghost predicate SnapshotCurrent(db: Db, r: RunState) {
    (r.Planned? || r.KeyFree?) && r.snapshot.id in db.wallets
        && db.wallets[r.snapshot.id].version == r.snapshot.version ==>
      r.snapshot.ledgerVnd == LedgerSum(db.wallets[r.snapshot.id].ledger)
      && r.snapshot.balanceVnd == r.plan.beforeCacheVnd == db.wallets[r.snapshot.id].balanceVnd
  }

  ghost predicate SnapshotsCurrent(s: System) {
    forall i | 0 <= i < |s.runs| :: SnapshotCurrent(s.db, s.runs[i])
  }

  lemma OtherKeepsSnapshot(d: Discipline, db: Db, db': Db, r: RunState)
    requires d != NeverLower && OtherWrite(d, db, db') && RunInvariant(db, r) && SnapshotCurrent(db, r)
    ensures SnapshotCurrent(db', r)
  {
  }

  lemma StepKeepsSnapshots(d: Discipline, s: System, e: Event, s': System)
    requires d != NeverLower && Invariant(s) && SnapshotsCurrent(s) && Step(d, s, e, s')
    ensures SnapshotsCurrent(s')
  {
    forall k | 0 <= k < |s'.runs| ensures SnapshotCurrent(s'.db, s'.runs[k]) {
      if k < |s.runs| {
        assert RunInvariant(s.db, s.runs[k]) && SnapshotCurrent(s.db, s.runs[k]);
        if e.Other? {
          OtherKeepsSnapshot(d, s.db, s'.db, s.runs[k]);
        }
      }
    }
  }

  lemma {:induction false} RunKeepsSnapshots(d: Discipline, states: seq<System>, events: seq<Event>, n: nat)
    requires d != NeverLower && IsRun(d, states, events) && IsStart(states[0]) && n < |states|
    ensures Invariant(states[n]) && SnapshotsCurrent(states[n])
  {
    if n > 0 {
      RunKeepsSnapshots(d, states, events, n - 1);
      StepKeepsSnapshots(d, states[n - 1], events[n - 1], states[n]);
      StepKeepsInvariant(d, states[n - 1], events[n - 1], states[n]);
    }
  }

  /** Where every writer that touches a wallet raises its version, each correction leaves the cache
      equal to the ledger as it stands at that moment, however long after the snapshot. */
  lemma CorrectionMeetsLedger(states: seq<System>, events: seq<Event>, n: nat, run: nat, plan: ReconciliationPlan)
    requires IsRun(Versioned, states, events) && IsStart(states[0]) && n < |events|
    requires events[n] == Swap(run) && states[n + 1].runs[run] == Done(Ok(Applied(plan)))
    ensures plan.walletId in states[n].db.wallets && plan.walletId in states[n + 1].db.wallets
    ensures var was, now := states[n].db.wallets[plan.walletId], states[n + 1].db.wallets[plan.walletId];
            && now == Wallet(LedgerSum(was.ledger), was.version + 1, was.ledger) && Drift(now) == 0
            && was.balanceVnd - now.balanceVnd == plan.amountVnd
  {
    RunKeepsSnapshots(Versioned, states, events, n);
    assert Step(Versioned, states[n], events[n], states[n + 1]);
    assert RunInvariant(states[n].db, states[n].runs[run]) && SnapshotCurrent(states[n].db, states[n].runs[run]);
  }

  /** Whatever other writers post, so long as versions do not go down: a correction leaves the cache
      equal to the ledger exactly when the ledger still sums to what it summed to when the run read
      it. */
  lemma CorrectionMeetsLedgerIff(states: seq<System>, events: seq<Event>, n: nat, run: nat, plan: ReconciliationPlan)
    returns (b: nat)
    requires IsRun(NeverLower, states, events) && IsStart(states[0]) && n < |events|
    requires events[n] == Swap(run) && states[n + 1].runs[run] == Done(Ok(Applied(plan)))
    ensures b < n && events[b] == Snap(run) && plan.walletId in states[b].db.wallets
    ensures plan.walletId in states[n].db.wallets && plan.walletId in states[n + 1].db.wallets
    ensures var read := states[b].db.wallets[plan.walletId];
            var was, now := states[n].db.wallets[plan.walletId], states[n + 1].db.wallets[plan.walletId];
            && now == Wallet(LedgerSum(read.ledger), read.version + 1, was.ledger)
            && was.balanceVnd - now.balanceVnd == plan.amountVnd
            && (Drift(now) == 0 <==> LedgerSum(was.ledger) == LedgerSum(read.ledger))
  {
    var a;
    a, b := AuditRecordsCommand(NeverLower, states, events, n, run, plan);
    assert Step(NeverLower, states[n], events[n], states[n + 1]);
  }

  // ----- Conservation

  function AuditedTotal(audits: seq<AuditRow>, id: string): int {
    if audits == [] then 0
    else AuditedTotal(audits[..|audits| - 1], id)
         + (if audits[|audits| - 1].targetId == id then audits[|audits| - 1].amountVnd else 0)
  }

  /** The drift of a wallet and what has been audited away from it. */
  function Accounted(db: Db, id: string): int
    requires id in db.wallets
  {
    Drift(db.wallets[id]) + AuditedTotal(db.audits, id)
  }

  lemma StepConserves(s: System, e: Event, s': System, id: string)
    requires Invariant(s) && SnapshotsCurrent(s) && Step(Posting, s, e, s') && id in s.db.wallets
    ensures id in s'.db.wallets && Accounted(s'.db, id) == Accounted(s.db, id)
  {
    if e.Swap? {
      var r := s.runs[e.i];
      assert RunInvariant(s.db, r) && SnapshotCurrent(s.db, r);
      if Commit(s.db, r.plan, r.snapshot).Ok? {
        assert s'.db.audits[..|s'.db.audits| - 1] == s.db.audits;
      }
    }
  }

  /** Over every interleaving with writers that post cache and ledger together, nothing is lost:
      the drift a wallet started with is its drift now plus the sum of its audited corrections. */
  lemma {:induction false} DriftIsConserved(states: seq<System>, events: seq<Event>, n: nat, id: string)
    requires IsRun(Posting, states, events) && IsStart(states[0]) && n < |states| && id in states[0].db.wallets
    ensures id in states[n].db.wallets && Accounted(states[n].db, id) == Accounted(states[0].db, id)
  {
    if n > 0 {
      DriftIsConserved(states, events, n - 1, id);
      RunKeepsSnapshots(Posting, states, events, n - 1);
      StepConserves(states[n - 1], events[n - 1], states[n], id);
    }
  }
}
