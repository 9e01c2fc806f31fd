/** Runs that show which promises of the reconciliation protocol need their conditions. */
module ReconciliationExamples {
  import opened Results
  import opened WalletReconciliation
  import opened ReconciliationProtocol

  /** A key in the form the command line asks for. */
  const KEY := "reconciliation:k"

  const CREDIT_OF_3 := LedgerRow(Credit, 3, 0, 3)

  /** A cache of 5 over a ledger of 3. */
  const DRIFTED := Wallet(5, 1, [CREDIT_OF_3])

  function Command(walletId: string, key: string): ReconcileInput {
    ReconcileInput(Some(walletId), Some(CACHE_REPAIR), Some(2), Some(5), Some(3), Some(1), Some(0),
                   Some("root"), Some("reviewed"), Some("correlation"), Some(key), Some(APPLY_CONFIRMATION))
  }

  function SnapshotOf(walletId: string): WalletSnapshot {
    WalletSnapshot(walletId, 5, 3, 1, 1, 0, None, false)
  }

  function PlanOf(walletId: string, key: string): ReconciliationPlan {
    ReconciliationPlan(walletId, 2, 5, 3, 3, 3, 1, 0, "root", "reviewed", "correlation", key, None, false)
  }

  lemma LedgerOfThree()
    ensures LedgerSum([CREDIT_OF_3]) == 3 && ChainBreaks([CREDIT_OF_3]) == 0
  {
    assert [CREDIT_OF_3][..0] == [];
  }

  lemma CommandPlans(db: Db, walletId: string, key: string)
    requires walletId != "" && key != "" && walletId in db.wallets && db.wallets[walletId] == DRIFTED
    requires db.migrationHead.None? && !db.doubleEntryReady
    ensures Plan(db, Command(walletId, key)) == Planned(SnapshotOf(walletId), PlanOf(walletId, key), |db.audits|)
  {
    LedgerOfThree();
  }

  /** A run with one more step. */
  lemma Extend(states: seq<System>, events: seq<Event>, e: Event, next: System)
    returns (states': seq<System>, events': seq<Event>)
    requires IsRun(NeverLower, states, events) && Step(NeverLower, states[|events|], e, next)
    ensures IsRun(NeverLower, states', events') && states'[0] == states[0] && states'[|events'|] == next
  {
    states', events' := states + [next], events + [e];
  }

  lemma BeginBoth(db: Db, x: ReconcileInput, y: ReconcileInput) returns (states: seq<System>, events: seq<Event>)
    ensures IsRun(NeverLower, states, events) && states[0] == System(db, [])
    ensures states[|events|] == System(db, [Started(x), Started(y)])
  {
    states, events := [System(db, [])], [];
    states, events := Extend(states, events, Begin(x), System(db, [Started(x)]));
    states, events := Extend(states, events, Begin(y), System(db, [Started(x), Started(y)]));
  }

  /** Both runs of two commands plan on the same snapshot of the store. */
  lemma PlanBoth(db: Db, w: string, v: string, key: string) returns (states: seq<System>, events: seq<Event>)
    requires w != "" && v != "" && key != "" && w in db.wallets && v in db.wallets
    requires db.wallets[w] == DRIFTED && db.wallets[v] == DRIFTED && db.audits == [] && db.migrationHead.None?
             && !db.doubleEntryReady
    ensures IsRun(NeverLower, states, events) && states[0] == System(db, [])
    ensures states[|events|] == System(db, [Planned(SnapshotOf(w), PlanOf(w, key), 0),
                                            Planned(SnapshotOf(v), PlanOf(v, key), 0)])
  {
    CommandPlans(db, w, key);
    CommandPlans(db, v, key);
    var first, second := Planned(SnapshotOf(w), PlanOf(w, key), 0), Planned(SnapshotOf(v), PlanOf(v, key), 0);
    states, events := BeginBoth(db, Command(w, key), Command(v, key));
    states, events := Extend(states, events, Snap(0), System(db, [first, Started(Command(v, key))]));
    states, events := Extend(states, events, Snap(1), System(db, [first, second]));
  }

  /** Two wallets, one key: both runs look the key up before either commits, and both corrections
      are audited. */
  lemma OneKeyTwoWallets() returns (states: seq<System>, events: seq<Event>)
    ensures IsRun(NeverLower, states, events) && IsStart(states[0])
    ensures var audits := states[|events|].db.audits;
            |audits| == 2 && audits[0].idempotencyKey == audits[1].idempotencyKey
                && audits[0].targetId != audits[1].targetId
  {
    var db := Db(map["x" := DRIFTED, "y" := DRIFTED], [], None, false);
    var px, py := PlanOf("x", KEY), PlanOf("y", KEY);
    var freeX, freeY := KeyFree(SnapshotOf("x"), px, 0, 0), KeyFree(SnapshotOf("y"), py, 0, 0);
    states, events := PlanBoth(db, "x", "y", KEY);
    states, events := Extend(states, events, Lookup(0), System(db, [freeX, Planned(SnapshotOf("y"), py, 0)]));
    states, events := Extend(states, events, Lookup(1), System(db, [freeX, freeY]));
    var db1 := Commit(db, px, SnapshotOf("x")).value;
    states, events := Extend(states, events, Swap(0), System(db1, [Done(Ok(Applied(px))), freeY]));
    var db2 := Commit(db1, py, SnapshotOf("y")).value;
    states, events := Extend(states, events, Swap(1), System(db2, [Done(Ok(Applied(px))), Done(Ok(Applied(py)))]));
  }

  /** The same command run twice at once: the second is answered `idempotent` although it expects
      the very version the first one corrected. */
  lemma IdempotentAtSameVersion() returns (states: seq<System>, events: seq<Event>)
    ensures IsRun(NeverLower, states, events) && IsStart(states[0])
    ensures var last := states[|events|];
            |last.runs| == 2 && last.runs[1].Done? && last.runs[1].result.Ok? && last.runs[1].result.value.Idempotent?
            && |last.db.audits| == 1 && last.db.audits[0].expectedVersion
                == last.runs[1].result.value.plan.beforeVersion
  {
    var db := Db(map["x" := DRIFTED], [], None, false);
    var p := PlanOf("x", KEY);
    var half, free := Planned(SnapshotOf("x"), p, 0), KeyFree(SnapshotOf("x"), p, 0, 0);
    states, events := PlanBoth(db, "x", "x", KEY);
    states, events := Extend(states, events, Lookup(0), System(db, [free, half]));
    var db1 := Commit(db, p, SnapshotOf("x")).value;
    states, events := Extend(states, events, Swap(0), System(db1, [Done(Ok(Applied(p))), half]));
    assert db1.audits[0].idempotencyKey == KEY && SameCorrection(db1.audits[0], p);
    states, events := Extend(states, events, Lookup(1), System(db1, [Done(Ok(Applied(p))), Done(Ok(Idempotent(p)))]));
  }

  /** A writer that posts to the ledger without raising the version: the swap still succeeds, and
      leaves a cache that is not the ledger. */
  lemma UnversionedWriterMissed() returns (states: seq<System>, events: seq<Event>)
    ensures IsRun(NeverLower, states, events) && IsStart(states[0])
    ensures var last := states[|events|];
            |last.db.audits| == 1 && "x" in last.db.wallets && Drift(last.db.wallets["x"]) != 0
  {
    var db := Db(map["x" := DRIFTED], [], None, false);
    var p := PlanOf("x", KEY);
    var free := KeyFree(SnapshotOf("x"), p, 0, 0);
    CommandPlans(db, "x", KEY);
    states, events := [System(db, [])], [];
    states, events := Extend(states, events, Begin(Command("x", KEY)), System(db, [Started(Command("x", KEY))]));
    states, events := Extend(states, events, Snap(0), System(db, [Planned(SnapshotOf("x"), p, 0)]));
    states, events := Extend(states, events, Lookup(0), System(db, [free]));
    var posted := [CREDIT_OF_3, LedgerRow(Credit, 1, 3, 4)];
    var db1 := db.(wallets := map["x" := Wallet(5, 1, posted)]);
    states, events := Extend(states, events, Other, System(db1, [free]));
    var db2 := Commit(db1, p, SnapshotOf("x")).value;
    states, events := Extend(states, events, Swap(0), System(db2, [Done(Ok(Applied(p)))]));
    LedgerOfThree();
    assert posted[..1] == [CREDIT_OF_3];
  }
}
