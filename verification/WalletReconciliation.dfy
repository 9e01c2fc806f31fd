/** The wallet reconciliation command: the ledger arithmetic of a snapshot, the plan, and one
    APPLY against the store. */
module WalletReconciliation {
  import opened Results

  // ----- The ledger of one wallet, in creation order

  datatype EntryType = Credit | Debit

  datatype LedgerRow = LedgerRow(entryType: EntryType, amountVnd: nat, balanceBeforeVnd: int, balanceAfterVnd: int)

  function SignedAmount(row: LedgerRow): int {
    if row.entryType.Credit? then row.amountVnd else 0 - row.amountVnd
  }

  function LedgerSum(rows: seq<LedgerRow>): int {
    if rows == [] then 0 else LedgerSum(rows[..|rows| - 1]) + SignedAmount(rows[|rows| - 1])
  }

  /** `balance_before` of a row against `balance_after` of the row before it. */
  function Gap(rows: seq<LedgerRow>, i: nat): int
    requires 1 <= i < |rows|
  {
    rows[i].balanceBeforeVnd - rows[i - 1].balanceAfterVnd
  }

  /** The number of rows whose lagged balance differs; the first row has none. */
  function ChainBreaks(rows: seq<LedgerRow>): nat {
    if |rows| <= 1 then 0
    else ChainBreaks(rows[..|rows| - 1]) + (if Gap(rows, |rows| - 1) != 0 then 1 else 0)
  }

  function GapSum(rows: seq<LedgerRow>): int {
    if |rows| <= 1 then 0 else GapSum(rows[..|rows| - 1]) + Gap(rows, |rows| - 1)
  }

  function BreakPositions(rows: seq<LedgerRow>): set<nat> {
    set i: nat | 1 <= i < |rows| && Gap(rows, i) != 0 :: i
  }

  /** Every row moves its balance by its own amount. */
  predicate IsBooked(rows: seq<LedgerRow>) {
    forall i | 0 <= i < |rows| :: rows[i].balanceAfterVnd == rows[i].balanceBeforeVnd + SignedAmount(rows[i])
  }

  /** The signed sum is the movement from first to last balance, less whatever the gaps moved. */
  lemma {:induction false} SumTelescopes(rows: seq<LedgerRow>)
    requires rows != [] && IsBooked(rows)
    ensures LedgerSum(rows) == rows[|rows| - 1].balanceAfterVnd - rows[0].balanceBeforeVnd - GapSum(rows)
  {
    var init := rows[..|rows| - 1];
    if init != [] {
      SumTelescopes(init);
    } else {
      assert LedgerSum(init) == 0;
    }
  }

  lemma BreaksOfLast(rows: seq<LedgerRow>)
    requires |rows| > 1
    ensures var last := |rows| - 1;
            && last !in BreakPositions(rows[..last])
            && BreakPositions(rows) == BreakPositions(rows[..last]) + if Gap(rows, last) != 0 then {last} else {}
  {
    var last := |rows| - 1;
    var init := rows[..last];
    assert forall i: nat | 1 <= i < last :: Gap(init, i) == Gap(rows, i);
    if Gap(rows, last) != 0 {
      assert BreakPositions(rows) == BreakPositions(init) + {last};
    } else {
      assert BreakPositions(rows) == BreakPositions(init);
    }
  }

  lemma {:induction false} ChainBreaksCount(rows: seq<LedgerRow>)
    ensures ChainBreaks(rows) == |BreakPositions(rows)|
  {
    if |rows| > 1 {
      ChainBreaksCount(rows[..|rows| - 1]);
      BreaksOfLast(rows);
      hide BreakPositions, Gap;
    }
  }

  lemma {:induction false} NoBreaksNoGaps(rows: seq<LedgerRow>)
    requires ChainBreaks(rows) == 0
    ensures GapSum(rows) == 0
  {
    if |rows| > 1 {
      NoBreaksNoGaps(rows[..|rows| - 1]);
    }
  }

  /** Without chain breaks the signed sum is the whole balance change. */
  lemma UnbrokenSumIsBalanceChange(rows: seq<LedgerRow>)
    requires rows != [] && IsBooked(rows) && ChainBreaks(rows) == 0
    ensures LedgerSum(rows) == rows[|rows| - 1].balanceAfterVnd - rows[0].balanceBeforeVnd
  {
    SumTelescopes(rows);
    NoBreaksNoGaps(rows);
  }

  /** What the rows of one kind moved. */
  function Moved(rows: seq<LedgerRow>, kind: EntryType): nat {
    if rows == [] then 0
    else
      var last := rows[|rows| - 1];
      Moved(rows[..|rows| - 1], kind) + if last.entryType == kind then last.amountVnd else 0
  }

  /** The signed sum is the credits less the debits. */
  lemma {:induction false} SumIsCreditsLessDebits(rows: seq<LedgerRow>)
    ensures LedgerSum(rows) == Moved(rows, Credit) - Moved(rows, Debit)
  {
    if rows != [] {
      SumIsCreditsLessDebits(rows[..|rows| - 1]);
    }
  }

  // ----- Snapshot, command and plan

  datatype Wallet = Wallet(balanceVnd: int, version: int, ledger: seq<LedgerRow>)

  /** A committed `wallet.reconciliation.apply` audit row. */
  datatype AuditRow = AuditRow(
    targetId: string, amountVnd: int, strategy: string, idempotencyKey: string,
    beforeCacheVnd: int, afterCacheVnd: int, ledgerVnd: int, expectedVersion: int, expectedChainBreaks: int,
    actorId: string, reason: string, correlationId: string)

  datatype Db = Db(wallets: map<string, Wallet>, audits: seq<AuditRow>, migrationHead: Option<string>,
                   doubleEntryReady: bool)

  datatype WalletSnapshot = WalletSnapshot(
    id: string, balanceVnd: int, ledgerVnd: int, version: int, entries: nat, chainBreaks: nat,
    migrationHead: Option<string>, doubleEntryReady: bool)

  const CACHE_REPAIR := "CACHE_REPAIR"
  const APPLY_CONFIRMATION := "APPLY ACCOUNTING RECONCILIATION"

  datatype ReconcileInput = ReconcileInput(
    walletId: Option<string>, strategy: Option<string>, amountVnd: Option<int>, expectedCacheVnd: Option<int>,
    expectedLedgerVnd: Option<int>, expectedVersion: Option<int>, expectedChainBreaks: Option<int>,
    actorId: Option<string>, reason: Option<string>, correlationId: Option<string>, idempotencyKey: Option<string>,
    confirmation: Option<string>)

  datatype ReconcileError =
    | WalletRequired | StrategyRequired | AmountRequired | AmountNotPositive | CacheRequired | LedgerRequired
    | VersionRequired | ChainBreaksRequired | ActorRequired | ReasonRequired | CorrelationRequired | KeyRequired
    | NotConfirmed | ReasonTooLong
    | WalletIdChanged | NegativeLedger | VersionChanged | ChainBreaksChanged | CacheChanged | LedgerChanged
    | AmountMismatch
    | WalletNotFound | KeyReused | DoubleEntryActive | WalletChanged

  datatype ReconciliationPlan = ReconciliationPlan(
    walletId: string, amountVnd: int, beforeCacheVnd: int, beforeLedgerVnd: int, afterCacheVnd: int,
    afterLedgerVnd: int,
    beforeVersion: int, expectedChainBreaks: int, actorId: string, reason: string, correlationId: string,
    idempotencyKey: string, migrationHead: Option<string>, doubleEntryReady: bool)

  predicate Truthy(s: Option<string>) {
    s.Some? && s.value != ""
  }

  /** The snapshot query: one wallet with its ledger sum and chain-break count. */
  function ReadSnapshot(db: Db, walletId: string): Option<WalletSnapshot> {
    if walletId !in db.wallets then None
    else
      var w := db.wallets[walletId];
      Some(WalletSnapshot(walletId, w.balanceVnd, LedgerSum(w.ledger), w.version, |w.ledger|, ChainBreaks(w.ledger),
                          db.migrationHead, db.doubleEntryReady))
  }

  function ValidateApplyInput(input: ReconcileInput): Option<ReconcileError> {
    if !Truthy(input.walletId) then Some(WalletRequired)
    else if input.strategy != Some(CACHE_REPAIR) then Some(StrategyRequired)
    else if input.amountVnd.None? then Some(AmountRequired)
    else if input.amountVnd.value <= 0 then Some(AmountNotPositive)
    else if input.expectedCacheVnd.None? then Some(CacheRequired)
    else if input.expectedLedgerVnd.None? then Some(LedgerRequired)
    else if input.expectedVersion.None? then Some(VersionRequired)
    else if input.expectedChainBreaks.None? then Some(ChainBreaksRequired)
    else if !Truthy(input.actorId) then Some(ActorRequired)
    else if !Truthy(input.reason) then Some(ReasonRequired)
    else if !Truthy(input.correlationId) then Some(CorrelationRequired)
    else if !Truthy(input.idempotencyKey) then Some(KeyRequired)
    else if input.confirmation != Some(APPLY_CONFIRMATION) then Some(NotConfirmed)
    else if |input.reason.value| > 500 then Some(ReasonTooLong)
    else None
  }

  function BuildReconciliationPlan(snapshot: WalletSnapshot, input: ReconcileInput)
    : Result<ReconciliationPlan, ReconcileError>
  {
    var invalid := ValidateApplyInput(input);
    if invalid.Some? then Err(invalid.value)
    else if snapshot.id != input.walletId.value then Err(WalletIdChanged)
    else if snapshot.ledgerVnd < 0 then Err(NegativeLedger)
    else if snapshot.version != input.expectedVersion.value then Err(VersionChanged)
    else if snapshot.chainBreaks != input.expectedChainBreaks.value then Err(ChainBreaksChanged)
    else if snapshot.balanceVnd != input.expectedCacheVnd.value then Err(CacheChanged)
    else if snapshot.ledgerVnd != input.expectedLedgerVnd.value then Err(LedgerChanged)
    else if input.expectedCacheVnd.value - input.expectedLedgerVnd.value != input.amountVnd.value then
        Err(AmountMismatch)
    else Ok(ReconciliationPlan(
      snapshot.id, input.amountVnd.value, snapshot.balanceVnd, snapshot.ledgerVnd, snapshot.ledgerVnd,
      snapshot.ledgerVnd,
      snapshot.version, snapshot.chainBreaks, input.actorId.value, input.reason.value, input.correlationId.value,
      input.idempotencyKey.value, snapshot.migrationHead, snapshot.doubleEntryReady))
  }

  /** A plan exists exactly when the operator's five expectations describe the snapshot; it then
      removes precisely the positive excess of cache over ledger. */
  lemma PlanIff(snapshot: WalletSnapshot, input: ReconcileInput)
    ensures var r := BuildReconciliationPlan(snapshot, input);
            r.Ok? <==>
              && ValidateApplyInput(input).None? && snapshot.id == input.walletId.value && snapshot.ledgerVnd >= 0
              && input.expectedVersion == Some(snapshot.version)
              && input.expectedChainBreaks == Some(snapshot.chainBreaks)
              && input.expectedCacheVnd == Some(snapshot.balanceVnd)
              && input.expectedLedgerVnd == Some(snapshot.ledgerVnd)
              && input.amountVnd == Some(snapshot.balanceVnd - snapshot.ledgerVnd)
    ensures var r := BuildReconciliationPlan(snapshot, input);
            r.Ok? ==>
              && r.value.amountVnd == r.value.beforeCacheVnd - r.value.afterCacheVnd > 0
              && r.value.afterCacheVnd == snapshot.ledgerVnd >= 0
  {
  }

  /** What a command must meet, in the order it is asked, and what it is told otherwise. */
  function Demand(s: WalletSnapshot, input: ReconcileInput, n: nat): (bool, ReconcileError)
    requires n < 21
  {
    match n
    case 0 => (Truthy(input.walletId), WalletRequired)
    case 1 => (input.strategy == Some("CACHE_REPAIR"), StrategyRequired)
    case 2 => (input.amountVnd.Some?, AmountRequired)
    case 3 => (input.amountVnd.Some? && input.amountVnd.value > 0, AmountNotPositive)
    case 4 => (input.expectedCacheVnd.Some?, CacheRequired)
    case 5 => (input.expectedLedgerVnd.Some?, LedgerRequired)
    case 6 => (input.expectedVersion.Some?, VersionRequired)
    case 7 => (input.expectedChainBreaks.Some?, ChainBreaksRequired)
    case 8 => (Truthy(input.actorId), ActorRequired)
    case 9 => (Truthy(input.reason), ReasonRequired)
    case 10 => (Truthy(input.correlationId), CorrelationRequired)
    case 11 => (Truthy(input.idempotencyKey), KeyRequired)
    case 12 => (input.confirmation == Some("APPLY ACCOUNTING RECONCILIATION"), NotConfirmed)
    case 13 => (input.reason.Some? && |input.reason.value| <= 500, ReasonTooLong)
    case 14 => (input.walletId == Some(s.id), WalletIdChanged)
    case 15 => (s.ledgerVnd >= 0, NegativeLedger)
    case 16 => (input.expectedVersion == Some(s.version), VersionChanged)
    case 17 => (input.expectedChainBreaks == Some(s.chainBreaks), ChainBreaksChanged)
    case 18 => (input.expectedCacheVnd == Some(s.balanceVnd), CacheChanged)
    case 19 => (input.expectedLedgerVnd == Some(s.ledgerVnd), LedgerChanged)
    case _ => (input.amountVnd == Some(s.balanceVnd - s.ledgerVnd), AmountMismatch)
  }

  /** A plan is refused by the first demand that is not met; the first fourteen need no snapshot. */
  lemma RefusedByFirstDemand(s: WalletSnapshot, input: ReconcileInput) returns (n: nat)
    ensures n <= 21 && (forall m | 0 <= m < n :: Demand(s, input, m).0) && (n < 21 ==> !Demand(s, input, n).0)
    ensures ValidateApplyInput(input) == if n < 14 then Some(Demand(s, input, n).1) else None
    ensures BuildReconciliationPlan(s, input).Ok? <==> n == 21
    ensures n < 21 ==> BuildReconciliationPlan(s, input) == Err(Demand(s, input, n).1)
  {
    n := 0;
    while n < 21 && Demand(s, input, n).0
      invariant n <= 21 && forall m | 0 <= m < n :: Demand(s, input, m).0
    {
      n := n + 1;
    }
    var all := [
      Demand(s, input, 0), Demand(s, input, 1), Demand(s, input, 2), Demand(s, input, 3), Demand(s, input, 4),
      Demand(s, input, 5), Demand(s, input, 6), Demand(s, input, 7), Demand(s, input, 8), Demand(s, input, 9),
      Demand(s, input, 10), Demand(s, input, 11), Demand(s, input, 12), Demand(s, input, 13), Demand(s, input, 14),
      Demand(s, input, 15), Demand(s, input, 16), Demand(s, input, 17), Demand(s, input, 18), Demand(s, input, 19),
      Demand(s, input, 20)];
    assert |all| == 21;
  }

  // ----- The steps of APPLY on the store

  /** The compare-and-swap of the cached balance. */
  function ApplyPlan(db: Db, plan: ReconciliationPlan, snapshot: WalletSnapshot): Result<Db, ReconcileError> {
    if plan.doubleEntryReady then Err(DoubleEntryActive)
    else if plan.walletId in db.wallets && db.wallets[plan.walletId].version == snapshot.version
            && db.wallets[plan.walletId].balanceVnd == plan.beforeCacheVnd then
      var w := db.wallets[plan.walletId];
      Ok(db.(wallets := db.wallets[plan.walletId := w.(balanceVnd := plan.afterCacheVnd, version := w.version + 1)]))
    else Err(WalletChanged)
  }

  function AuditOf(plan: ReconciliationPlan): AuditRow {
    AuditRow(plan.walletId, plan.amountVnd, CACHE_REPAIR, plan.idempotencyKey, plan.beforeCacheVnd, plan.afterCacheVnd,
             plan.afterLedgerVnd, plan.beforeVersion, plan.expectedChainBreaks, plan.actorId, plan.reason,
             plan.correlationId)
  }

  /** The swap and its audit row, which commit together. */
  function Commit(db: Db, plan: ReconciliationPlan, snapshot: WalletSnapshot): Result<Db, ReconcileError> {
    match ApplyPlan(db, plan, snapshot)
    case Err(e) => Err(e)
    case Ok(swapped) => Ok(swapped.(audits := swapped.audits + [AuditOf(plan)]))
  }

  predicate SameCorrection(existing: AuditRow, plan: ReconciliationPlan) {
    existing.targetId == plan.walletId && existing.amountVnd == plan.amountVnd && existing.strategy == CACHE_REPAIR
  }

  predicate HasKey(audits: seq<AuditRow>, key: string) {
    exists i :: 0 <= i < |audits| && audits[i].idempotencyKey == key
  }

  datatype ApplyOutcome = Applied(plan: ReconciliationPlan) | Idempotent(plan: ReconciliationPlan)

  /** One whole APPLY, nothing else running. The key lookup may return any row with the key. */
  ghost predicate RunsTo(before: Db, input: ReconcileInput, after: Db, r: Result<ApplyOutcome, ReconcileError>) {
    if ValidateApplyInput(input).Some? then r == Err(ValidateApplyInput(input).value) && after == before
    else
      var snapshot := ReadSnapshot(before, input.walletId.value);
      if snapshot.None? then r == Err(WalletNotFound) && after == before
      else
        match BuildReconciliationPlan(snapshot.value, input)
        case Err(e) => r == Err(e) && after == before
        case Ok(plan) =>
          if HasKey(before.audits, plan.idempotencyKey) then
            && after == before
            && exists i :: 0 <= i < |before.audits| && before.audits[i].idempotencyKey == plan.idempotencyKey
                 && r == if SameCorrection(before.audits[i], plan) then Ok(Idempotent(plan)) else Err(KeyReused)
          else
            match Commit(before, plan, snapshot.value)
            case Err(e) => r == Err(e) && after == before
            case Ok(db) => r == Ok(Applied(plan)) && after == db
  }

  /** The audit row of a correction, from the wallet it read and the operator's command. */
  predicate AuditsCorrection(row: AuditRow, id: string, was: Wallet, input: ReconcileInput) {
    && input.walletId == Some(id) && row.targetId == id
    && input.strategy == Some(row.strategy) && row.strategy == "CACHE_REPAIR"
    && row.beforeCacheVnd == was.balanceVnd && row.afterCacheVnd == row.ledgerVnd == LedgerSum(was.ledger)
    && row.amountVnd == was.balanceVnd - LedgerSum(was.ledger) && input.amountVnd == Some(row.amountVnd)
    && row.expectedVersion == was.version && row.expectedChainBreaks == |BreakPositions(was.ledger)|
    && input.idempotencyKey == Some(row.idempotencyKey) && input.actorId == Some(row.actorId)
    && input.reason == Some(row.reason) && input.correlationId == Some(row.correlationId)
  }

  /** A plan made from a snapshot audits what the snapshot read. */
  lemma PlanAudits(db: Db, input: ReconcileInput)
    requires ValidateApplyInput(input).None? && ReadSnapshot(db, input.walletId.value).Some?
    requires BuildReconciliationPlan(ReadSnapshot(db, input.walletId.value).value, input).Ok?
    ensures var id := input.walletId.value;
            var plan := BuildReconciliationPlan(ReadSnapshot(db, id).value, input).value;
            id in db.wallets && AuditsCorrection(AuditOf(plan), id, db.wallets[id], input)
  {
    ChainBreaksCount(db.wallets[input.walletId.value].ledger);
  }

  /** What a successful correction does: the cache becomes the ledger and drops by exactly the
      audited amount, the version rises by one, the ledger and every other wallet stay, and one
      audit row is added, which records the wallet as it was and the command as it was given. */
  lemma AppliedEffects(before: Db, input: ReconcileInput, after: Db, plan: ReconciliationPlan)
    requires RunsTo(before, input, after, Ok(Applied(plan)))
    ensures var id := plan.walletId;
            && input.walletId == Some(id) && id in before.wallets
            && var was := before.wallets[id];
            && after.wallets == before.wallets[id := Wallet(LedgerSum(was.ledger), was.version + 1, was.ledger)]
            && after.migrationHead == before.migrationHead && after.doubleEntryReady == before.doubleEntryReady
            && was.balanceVnd - LedgerSum(was.ledger) == plan.amountVnd > 0
            && |after.audits| == |before.audits| + 1 && after.audits[..|before.audits|] == before.audits
            && AuditsCorrection(after.audits[|before.audits|], id, was, input)
            && after.audits[|before.audits|].idempotencyKey == plan.idempotencyKey
            && !HasKey(before.audits, plan.idempotencyKey) && HasKey(after.audits, plan.idempotencyKey)
  {
    var id := input.walletId.value;
    var was := before.wallets[id];
    PlanAudits(before, input);
    hide AuditsCorrection, ValidateApplyInput, LedgerSum, ChainBreaks;
    assert after.audits[|before.audits|] == AuditOf(plan);
    assert after.wallets[id] == Wallet(LedgerSum(was.ledger), was.version + 1, was.ledger);
  }

  /** A command that meets every demand on its wallet. */
  predicate IsMet(db: Db, input: ReconcileInput) {
    && Truthy(input.walletId) && ReadSnapshot(db, input.walletId.value).Some?
    && BuildReconciliationPlan(ReadSnapshot(db, input.walletId.value).value, input).Ok?
  }

  /** What APPLY answers, nothing else running: a correction for a command that meets every demand,
      with a fresh key and the double entry not yet active; for a key that was used, whether it was
      for the same wallet, amount and strategy; and in every other case an error and no change. */
  lemma ApplyDecides(before: Db, input: ReconcileInput, after: Db, r: Result<ApplyOutcome, ReconcileError>)
    requires RunsTo(before, input, after, r)
    ensures !IsMet(before, input) ==> r.Err? && after == before
    ensures IsMet(before, input) ==>
              input.idempotencyKey.Some? && input.amountVnd.Some?
              && var key := input.idempotencyKey.value;
                 if HasKey(before.audits, key) then
                   && after == before
                   && exists row :: row in before.audits && row.idempotencyKey == key
                        && if Some(row.targetId) == input.walletId && Some(row.amountVnd) == input.amountVnd
                              && row.strategy == "CACHE_REPAIR"
                           then r.Ok? && r.value.Idempotent? else r == Err(KeyReused)
                 else if before.doubleEntryReady then r == Err(DoubleEntryActive) && after == before
                 else r.Ok? && r.value.Applied?
    ensures r == Err(WalletNotFound) <==>
            ValidateApplyInput(input).None? && input.walletId.value !in before.wallets
  {
    hide LedgerSum, ChainBreaks;
    if IsMet(before, input) && HasKey(before.audits, input.idempotencyKey.value) {
      var plan := BuildReconciliationPlan(ReadSnapshot(before, input.walletId.value).value, input).value;
      var i :| 0 <= i < |before.audits| && before.audits[i].idempotencyKey == plan.idempotencyKey
          && r == if SameCorrection(before.audits[i], plan) then Ok(Idempotent(plan)) else Err(KeyReused);
      assert before.audits[i] in before.audits;
    }
  }

  /** Replaying an applied command verbatim, at any later version, is refused and changes nothing:
      at the version check, or before it where the ledger has gone negative or the wallet is gone. */
  lemma ReplayRefused(before: Db, input: ReconcileInput, after: Db, plan: ReconciliationPlan,
                      later: Db, outcome: Db, r: Result<ApplyOutcome, ReconcileError>)
    requires RunsTo(before, input, after, Ok(Applied(plan)))
    requires plan.walletId in later.wallets ==>
             later.wallets[plan.walletId].version >= after.wallets[plan.walletId].version
    requires RunsTo(later, input, outcome, r)
    ensures outcome == later
    ensures r == Err(if plan.walletId !in later.wallets then WalletNotFound
                     else if LedgerSum(later.wallets[plan.walletId].ledger) < 0 then NegativeLedger
                     else VersionChanged)
  {
    AppliedEffects(before, input, after, plan);
  }

  /** Every audited correction left its wallet at a later version. */
  predicate AuditsBehind(db: Db) {
    forall i | 0 <= i < |db.audits| ::
      db.audits[i].targetId in db.wallets ==> db.audits[i].expectedVersion < db.wallets[db.audits[i].targetId].version
  }

  /** With nothing running beside it, a command is answered `idempotent` only at a newer expected
      version whose mismatch equals the recorded amount. */
  lemma IdempotentNeedsNewMismatch(before: Db, input: ReconcileInput, after: Db, plan: ReconciliationPlan)
    requires AuditsBehind(before) && RunsTo(before, input, after, Ok(Idempotent(plan)))
    ensures after == before
    ensures exists i :: 0 <= i < |before.audits| && before.audits[i].idempotencyKey == plan.idempotencyKey
              && before.audits[i].targetId == plan.walletId && before.audits[i].amountVnd == plan.amountVnd
              && input.expectedVersion.Some? && before.audits[i].expectedVersion < input.expectedVersion.value
              && input.amountVnd == Some(before.audits[i].amountVnd)
  {
    var i :| 0 <= i < |before.audits| && before.audits[i].idempotencyKey == plan.idempotencyKey
               && SameCorrection(before.audits[i], plan);
    assert before.audits[i].targetId in before.wallets;
  }

  // ----- The store, as the command drives it

  class Store {
    var wallets: map<string, Wallet>
    var audits: seq<AuditRow>
    const migrationHead: Option<string>
    const doubleEntryReady: bool

    function State(): Db
      reads this
    {
      Db(wallets, audits, migrationHead, doubleEntryReady)
    }

    method UpdateWallet(plan: ReconciliationPlan, snapshot: WalletSnapshot) returns (r: Result<(), ReconcileError>)
      modifies this`wallets
      ensures match ApplyPlan(old(State()), plan, snapshot)
              case Ok(db) => r == Ok(()) && State() == db
              case Err(e) => r == Err(e) && State() == old(State())
    {
      if plan.doubleEntryReady {
        return Err(DoubleEntryActive);
      }
      var affected := 0;
      if plan.walletId in wallets {
        var w := wallets[plan.walletId];
        if w.version == snapshot.version && w.balanceVnd == plan.beforeCacheVnd {
          wallets := wallets[plan.walletId := w.(balanceVnd := plan.afterCacheVnd, version := w.version + 1)];
          affected := 1;
        }
      }
      if affected != 1 {
        return Err(WalletChanged);
      }
      return Ok(());
    }

    method AppendAuditEvent(row: AuditRow)
      modifies this`audits
      ensures State() == old(State()).(audits := old(audits) + [row])
    {
      audits := audits + [row];
    }

    method FindExistingApply(key: string) returns (r: Option<AuditRow>)
      ensures r.None? <==> !HasKey(audits, key)
      ensures r.Some? ==> r.value.idempotencyKey == key && r.value in audits
    {
      for i := 0 to |audits|
        invariant forall j | 0 <= j < i :: audits[j].idempotencyKey != key
      {
        if audits[i].idempotencyKey == key {
          return Some(audits[i]);
        }
      }
      return None;
    }

    /** One APPLY inside its transaction. */
    method Run(input: ReconcileInput) returns (r: Result<ApplyOutcome, ReconcileError>)
      modifies this
      ensures RunsTo(old(State()), input, State(), r)
    {
      var invalid := ValidateApplyInput(input);
      if invalid.Some? {
        return Err(invalid.value);
      }
      var snapshot := ReadSnapshot(State(), input.walletId.value);
      if snapshot.None? {
        return Err(WalletNotFound);
      }
      var planned := BuildReconciliationPlan(snapshot.value, input);
      if planned.Err? {
        return Err(planned.error);
      }
      var plan := planned.value;
      var existing := FindExistingApply(plan.idempotencyKey);
      if existing.Some? {
        if !SameCorrection(existing.value, plan) {
          return Err(KeyReused);
        }
        return Ok(Idempotent(plan));
      }
      var updated := UpdateWallet(plan, snapshot.value);
      if updated.Err? {
        return Err(updated.error);
      }
      AppendAuditEvent(AuditOf(plan));
      return Ok(Applied(plan));
    }
  }
}
