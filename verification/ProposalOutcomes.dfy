/** What the steps of a synchronisation leave in every row of the table, written out field by field
    (src/openhamster/api/services.py). */
module ProposalOutcomes {
  import opened Prelude
  import opened Governance
  import opened Ranking
  import opened ProposalTable
  import opened ProposalLifecycle

  /** `p` has been promoted later than `q`, or at the same time and was created later; a row never
      promoted comes last. */
  predicate PromotedAfter(p: Proposal, q: Proposal) {
    match (p.promotedAt, q.promotedAt)
    case (Some(x), Some(y)) => x > y || (x == y && p.createdAt > q.createdAt)
    case (Some(_), None) => true
    case (None, Some(_)) => false
    case (None, None) => p.createdAt > q.createdAt
  }

  lemma PromotedKeyOrders(p: Proposal, q: Proposal)
    ensures Greater(PromotedKey(p), PromotedKey(q)) <==> PromotedAfter(p, q)
  {
  }

  /** Nothing but row `i` differs. */
  predicate OnlyDiffersAt(t: Table, t': Table, i: nat) {
    |t'| == |t| && forall k | 0 <= k < |t| && k != i :: t'[k] == t[k]
  }

  predicate OnlyDiffersAtBoth(t: Table, t': Table, i: nat, j: nat) {
    |t'| == |t| && forall k | 0 <= k < |t| && k != i && k != j :: t'[k] == t[k]
  }

  /** The strategy taken to be active is the active row promoted last. */
  lemma ActiveIsPromotedLast(t: Table, k: nat)
    requires GetActive(t) == Some(k)
    ensures t[k].status == Active && forall i | 0 <= i < |t| && t[i].status == Active :: !PromotedAfter(t[i], t[k])
  {
    forall i | 0 <= i < |t| && t[i].status == Active
      ensures !PromotedAfter(t[i], t[k])
    {
      assert IsActive(t[i]);
      PromotedKeyOrders(t[i], t[k]);
    }
  }

  // ----- The health check -----

  /** The row of a strategy that steps down with this decision. A decision dated before its latest one
      does not become its latest. */
  function SteppedDown(p: Proposal, action: Action, phase: Phase, now: Time): Proposal {
    var p' := p.(status := Candidate, updatedAt := now);
    if now < p.decidedAt then p' else p'.(decision := action, phase := phase, decidedAt := now)
  }

  predicate CheckedBefore(p: Proposal) {
    p.decision == PauseActive || p.decision == RollbackToPreviousStable
  }

  /** From the rollback threshold on, if some archived strategy has been promoted, the one promoted
      last takes over, as promoted now, and the active strategy steps down to candidate. */
  lemma RollbackRestoresStable(t: Table, a: nat, drawdown: real, g: Profile, now: Time) returns (b: nat)
    requires AtMostOneActive(t) && a < |t| && t[a].status == Active && !CheckedBefore(t[a])
    requires g.drawdownPause <= drawdown && g.drawdownRollback <= drawdown
    requires exists k | 0 <= k < |t| :: t[k].status == Archived && t[k].promotedAt.Some?
    ensures b < |t| && t[b].status == Archived && t[b].promotedAt.Some?
    ensures forall k | 0 <= k < |t| && t[k].status == Archived && t[k].promotedAt.Some? :: !PromotedAfter(t[k], t[b])
    ensures var t' := Health(t, drawdown, g, now);
            && OnlyDiffersAtBoth(t, t', a, b)
            && t'[a] == SteppedDown(t[a], RollbackToPreviousStable, RolledBack, now)
            && t'[b] == t[b].(status := Active, promotedAt := Some(now), updatedAt := now)
            && forall k | 0 <= k < |t| :: t'[k].status == Active <==> k == b
  {
    UniqueActive(t);
    var stable := First(t, PreviouslyStable, PromotedKey);
    var k :| 0 <= k < |t| && t[k].status == Archived && t[k].promotedAt.Some?;
    assert PreviouslyStable(t[k]);
    b := stable.value;
    forall k | 0 <= k < |t| && t[k].status == Archived && t[k].promotedAt.Some?
      ensures !PromotedAfter(t[k], t[b])
    {
      assert PreviouslyStable(t[k]);
      PromotedKeyOrders(t[k], t[b]);
    }
  }

  /** Between the thresholds, or without such a strategy, the active one only steps down. */
  lemma PauseStepsDown(t: Table, a: nat, drawdown: real, g: Profile, now: Time)
    requires AtMostOneActive(t) && a < |t| && t[a].status == Active && !CheckedBefore(t[a])
    requires g.drawdownPause <= drawdown
    requires || drawdown < g.drawdownRollback
             || forall k | 0 <= k < |t| :: t[k].status == Archived ==> t[k].promotedAt.None?
    ensures var t' := Health(t, drawdown, g, now);
            && OnlyDiffersAt(t, t', a)
            && t'[a] == SteppedDown(t[a], PauseActive, PausedPendingReview, now)
  {
    UniqueActive(t);
  }

  /** Otherwise nothing changes. */
  lemma HealthyStays(t: Table, drawdown: real, g: Profile, now: Time)
    requires forall a | 0 <= a < |t| && t[a].status == Active :: CheckedBefore(t[a]) || drawdown < g.drawdownPause
    ensures Health(t, drawdown, g, now) == t
  {
  }

  // ----- Recovery -----

  predicate CanBeRecovered(p: Proposal) {
    p.sourceKind != Mock && p.promotedAt.Some?
  }

  /** Recovery makes the strategy active again that was promoted last, mocks aside. Its time of
      promotion stays. */
  lemma RecoveryTakesPromotedLast(t: Table, now: Time) returns (k: nat)
    requires exists i | 0 <= i < |t| :: CanBeRecovered(t[i])
    ensures k < |t| && CanBeRecovered(t[k])
    ensures forall i | 0 <= i < |t| && CanBeRecovered(t[i]) :: !PromotedAfter(t[i], t[k])
    ensures Recover(t, now) == Some(t[k := t[k].(status := Active, archivedAt := None, updatedAt := now)])
  {
    var i :| 0 <= i < |t| && CanBeRecovered(t[i]);
    assert Recoverable(t[i]);
    k := First(t, Recoverable, PromotedKey).value;
    forall i | 0 <= i < |t| && CanBeRecovered(t[i])
      ensures !PromotedAfter(t[i], t[k])
    {
      assert Recoverable(t[i]);
      PromotedKeyOrders(t[i], t[k]);
    }
  }

  lemma NothingToRecoverIff(t: Table, now: Time)
    ensures Recover(t, now) == None <==> forall i | 0 <= i < |t| :: !CanBeRecovered(t[i])
  {
    forall i | 0 <= i < |t|
      ensures Recoverable(t[i]) <==> CanBeRecovered(t[i])
    {
    }
  }

  // ----- Promotion over a mock -----

  /** `p` is a real candidate, ready, of the same symbol and market, that reaches the market's
      threshold and the score of `active`. */
  predicate ReadyOver(p: Proposal, active: Proposal) {
    && p.status == Candidate && p.sourceKind != Mock && p.providerReady
    && p.symbol == active.symbol && p.market == active.market
    && p.finalScore >= (if active.market == CN then 750 else 760)
    && p.finalScore >= active.finalScore
  }

  /** `p` scores higher than `q`, or the same and was created later. */
  predicate RanksAbove(p: Proposal, q: Proposal) {
    p.finalScore > q.finalScore || (p.finalScore == q.finalScore && p.createdAt > q.createdAt)
  }

  /** An active strategy that did not come from the real model gives way to the best ready candidate. */
  lemma BestReadyTakesOver(t: Table, a: nat, now: Time) returns (c: nat)
    requires a < |t| && t[a].status == Active && t[a].sourceKind != Minimax
    requires exists i | 0 <= i < |t| :: ReadyOver(t[i], t[a])
    ensures c < |t| && ReadyOver(t[c], t[a])
    ensures forall i | 0 <= i < |t| && ReadyOver(t[i], t[a]) :: !RanksAbove(t[i], t[c])
    ensures var t' := PromoteOverMock(t, a, now);
            && OnlyDiffersAtBoth(t, t', a, c)
            && t'[a] == t[a].(status := Archived, archivedAt := Some(now), updatedAt := now)
            && t'[c] == (var p := t[c].(status := Active, promotedAt := Some(now), updatedAt := now);
                         if now < p.decidedAt then p
                         else p.(decision := PromoteToPaper, phase := PromotionReady, decidedAt := now))
  {
    var i :| 0 <= i < |t| && ReadyOver(t[i], t[a]);
    assert Challenges(t[a])(t[i]);
    c := First(t, Challenges(t[a]), ScoreKey).value;
    forall i | 0 <= i < |t| && ReadyOver(t[i], t[a])
      ensures !RanksAbove(t[i], t[c])
    {
      assert Challenges(t[a])(t[i]);
      assert !Greater(ScoreKey(t[i]), ScoreKey(t[c]));
    }
  }

  /** A strategy of the real model, or one nobody is ready to replace, stays. */
  lemma NobodyTakesOver(t: Table, a: nat, now: Time)
    requires a < |t|
    requires t[a].sourceKind == Minimax || forall i | 0 <= i < |t| :: !ReadyOver(t[i], t[a])
    ensures PromoteOverMock(t, a, now) == t
  {
    forall i | 0 <= i < |t| && Challenges(t[a])(t[i])
      ensures ReadyOver(t[i], t[a])
    {
    }
  }

  // ----- A batch of new proposals -----

  /** What the pool and the table need of `b` whatever strategy is active. */
  predicate Admissible(batch: Batch, b: Blueprint) {
    && b.bottomLinePassed && b.knowledge == []
    && b.finalScore >= (if batch.market == CN then 750 else 760)
    && (!batch.policy.requireBacktest || b.gate.eligible)
    && !(batch.policy.blockOnMacroDegrade && batch.macroDegraded)
  }

  /** `b` may take the place of the active strategy of this context. */
  predicate Outdoes(batch: Batch, b: Blueprint, active: ActiveContext) {
    var (margin, days) := if batch.market == CN then (30, 5) else (25, 4);
    || (b.finalScore >= active.finalScore + margin && CooldownOver(active.promotedAt, batch.now, days))
    || (active.sourceKind == Mock && b.sourceKind != Mock && b.finalScore >= active.finalScore)
  }

  /** What the blueprints of a batch are judged against at first: the previous strategy's score, source
      and time of promotion. */
  function JudgedAgainst(t: Table, previous: Option<nat>): Option<ActiveContext>
    requires previous.Some? ==> previous.value < |t|
  {
    match previous
    case None => None
    case Some(k) => Some(ActiveContext(t[k].finalScore, t[k].sourceKind, t[k].promotedAt))
  }

  /** Blueprint `i` may take the place of the strategy of this context. */
  predicate MayTakeOver(batch: Batch, context: Option<ActiveContext>, i: nat)
    requires i < |batch.blueprints|
  {
    && Admissible(batch, batch.blueprints[i])
    && (context.Some? ==> Outdoes(batch, batch.blueprints[i], context.value))
  }

  lemma PromotesIffMayTakeOver(batch: Batch, context: Option<ActiveContext>, i: nat)
    requires i < |batch.blueprints|
    ensures Promotes(batch, context, i) <==> MayTakeOver(batch, context, i)
  {
    PromotedIff(ReviewOf(batch, batch.blueprints[i], context), MarketProfile(batch.market), batch.policy);
  }

  lemma SomebodyPromotedIff(batch: Batch, context: Option<ActiveContext>)
    ensures !PromotionsTo(batch, context, |batch.blueprints|).Nobody? <==>
              exists i | 0 <= i < |batch.blueprints| :: MayTakeOver(batch, context, i)
  {
    var n := |batch.blueprints|;
    var p := PromotionsTo(batch, context, n);
    if p.Nobody? {
      forall i: nat | i < n
        ensures !MayTakeOver(batch, context, i)
      {
        FirstIsFirst(batch, context, n, i);
        PromotesIffMayTakeOver(batch, context, i);
      }
    } else {
      PromotesIffMayTakeOver(batch, context, p.first);
    }
  }

  lemma OldRow(t: Table, previous: Option<nat>, batch: Batch, j: nat)
    requires previous.Some? ==> previous.value < |t|
    requires j < |t|
    ensures Materialize(t, previous, batch)[j] ==
              if previous == Some(j) && !PromotionsTo(batch, ContextFor(t, previous), |batch.blueprints|).Nobody?
              then t[j].(status := Archived, archivedAt := Some(batch.now), updatedAt := batch.now)
              else t[j]
  {
    var start := BatchState(t, ContextFor(t, previous), false);
    var s := AddBlueprints(start, batch, |batch.blueprints|);
    BatchPromotesExactly(start, batch, |batch.blueprints|, s);
    assert s.table[..|t|][j] == t[j];
  }

  /** The previous strategy is archived exactly when some blueprint may take its place; no other row of
      the table is touched. */
  lemma BatchArchivesPrevious(t: Table, previous: Option<nat>, batch: Batch, j: nat)
    requires previous.Some? ==> previous.value < |t|
    requires j < |t|
    ensures Materialize(t, previous, batch)[j] ==
              if previous == Some(j)
                && exists i | 0 <= i < |batch.blueprints| :: MayTakeOver(batch, JudgedAgainst(t, previous), i)
              then t[j].(status := Archived, archivedAt := Some(batch.now), updatedAt := batch.now)
              else t[j]
  {
    OldRow(t, previous, batch, j);
    assert ContextFor(t, previous) == JudgedAgainst(t, previous);
    SomebodyPromotedIff(batch, JudgedAgainst(t, previous));
  }

  /** `b` is good enough for the candidate pool. */
  predicate WorthKeeping(batch: Batch, b: Blueprint) {
    && (b.bottomLinePassed || (b.gate.available && !b.gate.hardFails))
    && b.finalScore >= (if batch.market == CN then 680 else 690) && b.sourceKind != Mock
    && forall k | k in b.knowledge :: k == LowNovelty || k == CapacityUnclear
  }

  /** The status, decision and phase of a new row. */
  lemma NewRowDecides(batch: Batch, b: Blueprint, context: Option<ActiveContext>)
    ensures var p := NewProposal(batch, b, context);
            if Admissible(batch, b) && (context.Some? ==> Outdoes(batch, b, context.value)) then
              p.status == Active && p.decision == PromoteToPaper && p.phase == PromotionReady
            else if WorthKeeping(batch, b) then
              && p.status == Candidate && p.decision == KeepCandidate
              && p.phase == if context.Some?
                              && !CooldownOver(context.value.promotedAt, batch.now, if batch.market == CN then 5 else 4)
                            then CandidateCooldown else CandidateWatch
            else p.status == Rejected && p.decision == Reject && p.phase == RejectedPhase
  {
    var r, g := ReviewOf(batch, b, context), MarketProfile(batch.market);
    PromotedIff(r, g, batch.policy);
    PhaseIs(r, g, batch.policy);
    if Decide(r, g, batch.policy).0 != Active {
      CandidateIff(r, g, batch.policy);
    }
  }

  /** Nothing is listed against promoting a new row exactly when it is no mock and only its bottom line,
      if anything, kept it from being promoted. */
  lemma NewRowIsUnblockedIff(batch: Batch, b: Blueprint, context: Option<ActiveContext>)
    ensures NewProposal(batch, b, context).promotionBlocked <==>
              !(&& b.sourceKind != Mock && Admissible(batch, b.(bottomLinePassed := true))
                && (context.Some? ==> Outdoes(batch, b, context.value)))
  {
    NothingListedIff(ReviewOf(batch, b, context), MarketProfile(batch.market), batch.policy);
  }

  /** The row written for `b`, field by field. */
  predicate RowIs(p: Proposal, batch: Batch, b: Blueprint, context: Option<ActiveContext>) {
    var mayReplace := context.Some? ==> Outdoes(batch, b, context.value);
    && p.symbol == batch.symbol && p.market == batch.market && p.sourceKind == b.sourceKind
    && p.providerReady == b.providerReady && p.finalScore == b.finalScore
    && p.createdAt == p.updatedAt == p.decidedAt == batch.now
    && p.gateEligible == b.gate.eligible && p.canReplace == b.canReplace
    && (p.knowledgeBlocked <==> b.knowledge != [])
    && (p.promotionBlocked <==>
          !(b.sourceKind != Mock && Admissible(batch, b.(bottomLinePassed := true)) && mayReplace))
    && p.promotedAt == (if p.status == Active then Some(batch.now) else None)
    && p.archivedAt == (if p.status == Rejected then Some(batch.now) else None)
    && if Admissible(batch, b) && mayReplace then
         p.status == Active && p.decision == PromoteToPaper && p.phase == PromotionReady
       else if WorthKeeping(batch, b) then
         && p.status == Candidate && p.decision == KeepCandidate
         && p.phase == if context.Some?
                         && !CooldownOver(context.value.promotedAt, batch.now, if batch.market == CN then 5 else 4)
                       then CandidateCooldown else CandidateWatch
       else p.status == Rejected && p.decision == Reject && p.phase == RejectedPhase
  }

  lemma NewRowIs(batch: Batch, b: Blueprint, context: Option<ActiveContext>)
    ensures RowIs(NewProposal(batch, b, context), batch, b, context)
  {
    NewRowDecides(batch, b, context);
    NewRowIsUnblockedIff(batch, b, context);
  }

  /** The rows from `size` on are those of the first `n` blueprints, each judged in the context that the
      promotions before it leave. */
  predicate RowsJudged(table: Table, size: nat, batch: Batch, context: Option<ActiveContext>, n: nat)
    requires n <= |batch.blueprints|
  {
    |table| == size + n && forall i: nat | i < n ::
      RowIs(table[size + i], batch, batch.blueprints[i], ContextTo(batch, context, i))
  }

  lemma AddRowJudged(table: Table, size: nat, batch: Batch, context: Option<ActiveContext>, n: nat, row: Proposal)
    requires n < |batch.blueprints| && RowsJudged(table, size, batch, context, n)
    requires RowIs(row, batch, batch.blueprints[n], ContextTo(batch, context, n))
    ensures RowsJudged(table + [row], size, batch, context, n + 1)
  {
    var table' := table + [row];
    forall i: nat | i < n + 1
      ensures RowIs(table'[size + i], batch, batch.blueprints[i], ContextTo(batch, context, i))
    {
      if i < n {
        assert table'[size + i] == table[size + i];
      }
    }
  }

  /** The loop state of a batch: its promotions and its rows. */
  ghost predicate BatchRows(start: BatchState, batch: Batch, n: nat, s: BatchState)
    requires n <= |batch.blueprints|
  {
    BatchOutcome(start, batch, n, s) && RowsJudged(s.table, |start.table|, batch, start.context, n)
  }

  lemma AddKeepsRows(start: BatchState, batch: Batch, n: nat, s: BatchState)
    requires n < |batch.blueprints| && BatchRows(start, batch, n, s)
    ensures BatchRows(start, batch, n + 1, AddNext(s, batch, n))
  {
    AddKeepsOutcome(start, batch, n, s);
    var row := NewProposal(batch, batch.blueprints[n], s.context);
    NewRowIs(batch, batch.blueprints[n], s.context);
    AddRowJudged(s.table, |start.table|, batch, start.context, n, row);
  }

  lemma StartRows(start: BatchState, batch: Batch)
    requires !start.promoted
    ensures BatchRows(start, batch, 0, start)
  {
  }

  /** `holds` of the loop state passes on to the next one. */
  ghost predicate Passes(holds: (nat, BatchState) -> bool, batch: Batch, n: nat, s: BatchState) {
    n < |batch.blueprints| && holds(n, s) ==> holds(n + 1, AddNext(s, batch, n))
  }

  lemma {:induction false} LoopInvariant(holds: (nat, BatchState) -> bool, start: BatchState, batch: Batch, n: nat)
    requires n <= |batch.blueprints|
    requires holds(0, start) && forall k: nat, s :: Passes(holds, batch, k, s)
    ensures holds(n, AddBlueprints(start, batch, n))
    decreases n
  {
    if n > 0 {
      LoopInvariant(holds, start, batch, n - 1);
      var before := AddBlueprints(start, batch, n - 1);
      assert Passes(holds, batch, n - 1, before);
      assert AddBlueprints(start, batch, n) == AddNext(before, batch, n - 1);
    }
  }

  ghost function RowsHold(start: BatchState, batch: Batch): (nat, BatchState) -> bool {
    (k: nat, s: BatchState) => k <= |batch.blueprints| && BatchRows(start, batch, k, s)
  }

  lemma RowsPass(start: BatchState, batch: Batch, k: nat, s: BatchState)
    ensures Passes(RowsHold(start, batch), batch, k, s)
  {
    if k < |batch.blueprints| && BatchRows(start, batch, k, s) {
      AddKeepsRows(start, batch, k, s);
    }
  }

  lemma BatchJudges(start: BatchState, batch: Batch)
    requires !start.promoted
    ensures BatchRows(start, batch, |batch.blueprints|, AddBlueprints(start, batch, |batch.blueprints|))
  {
    StartRows(start, batch);
    forall k: nat, s
      ensures Passes(RowsHold(start, batch), batch, k, s)
    {
      RowsPass(start, batch, k, s);
    }
    LoopInvariant(RowsHold(start, batch), start, batch, |batch.blueprints|);
  }

  lemma JudgedRow(start: BatchState, batch: Batch, n: nat, s: BatchState, i: nat)
    requires i < n <= |batch.blueprints| && BatchRows(start, batch, n, s)
    ensures RowIs(s.table[|start.table| + i], batch, batch.blueprints[i], ContextTo(batch, start.context, i))
  {
  }

  lemma AddedRowsEndTable(t: Table, previous: Option<nat>, batch: Batch, i: nat)
    requires previous.Some? ==> previous.value < |t|
    requires i < |batch.blueprints|
    ensures Materialize(t, previous, batch)[|t| + i]
         == AddBlueprints(BatchState(t, ContextFor(t, previous), false), batch, |batch.blueprints|).table[|t| + i]
  {
  }

  /** Every blueprint gives a row, judged in the context that the promotions before it leave. */
  lemma BlueprintGivesRow(t: Table, previous: Option<nat>, batch: Batch, i: nat)
    requires previous.Some? ==> previous.value < |t|
    requires i < |batch.blueprints|
    ensures RowIs(Materialize(t, previous, batch)[|t| + i], batch, batch.blueprints[i],
                  ContextTo(batch, JudgedAgainst(t, previous), i))
  {
    var start := BatchState(t, ContextFor(t, previous), false);
    AddedRowsEndTable(t, previous, batch, i);
    BatchJudges(start, batch);
    JudgedRow(start, batch, |batch.blueprints|, AddBlueprints(start, batch, |batch.blueprints|), i);
  }

  /** The symbols of a synchronisation are researched in order, each against the strategy that the ones
      before it leave active. */
  lemma {:induction false} LastBatchSeesTheOthers(t: Table, previous: Option<nat>, batches: seq<Batch>, last: Batch)
    requires previous.Some? ==> previous.value < |t|
    ensures var (t1, active) := MaterializeAll(t, previous, batches);
            var t2 := Materialize(t1, active, last);
            MaterializeAll(t, previous, batches + [last]) == (t2, GetActive(t2))
    decreases |batches|
  {
    if batches == [] {
      assert (batches + [last])[1..] == [];
    } else {
      assert (batches + [last])[1..] == batches[1..] + [last];
      var t' := Materialize(t, previous, batches[0]);
      LastBatchSeesTheOthers(t', GetActive(t'), batches[1..], last);
    }
  }

  // ----- Before the research -----

  function ArchivedRow(p: Proposal, now: Time): Proposal {
    p.(status := Archived, archivedAt := Some(now), updatedAt := now)
  }

  /** Candidates and rejected rows of another symbol or market are archived. The symbol is the active
      strategy's, or the first to be researched. */
  lemma OutOfScopeIsArchived(t: Table, s: SyncInput, i: nat)
    requires i < |t|
    ensures var symbol := if GetActive(t).Some? then t[GetActive(t).value].symbol else s.firstSymbol;
            Scoped(t, s)[i] ==
              if (t[i].status == Candidate || t[i].status == Rejected)
                 && !(t[i].symbol == symbol && t[i].market == s.market)
              then ArchivedRow(t[i], s.now) else t[i]
  {
  }

  /** A refresh archives every row but the active strategy's. */
  lemma RefreshArchivesTheRest(t: Table, s: SyncInput, i: nat)
    requires s.forceRefresh && AtMostOneActive(t) && i < |t|
    ensures var (t', active) := Settled(t, GetActive(t), s);
            && active == GetActive(t) && |t'| == |t|
            && t'[i] == if t[i].status == Active || t[i].status == Archived then t[i] else ArchivedRow(t[i], s.now)
  {
    UniqueActive(t);
  }

  /** Without an active strategy, the strategy that can be recovered is, once a row is open; if there is
      none to recover, every row is archived. */
  lemma NoActiveIsRecovered(t: Table, s: SyncInput, i: nat)
    requires !s.forceRefresh && NoneActive(t) && i < |t|
    ensures var (t', active) := Settled(t, None, s);
            if forall k | 0 <= k < |t| :: t[k].status == Archived then t' == t && active == None
            else if exists k | 0 <= k < |t| :: CanBeRecovered(t[k]) then
              Recover(t, s.now) == Some(t') && active == GetActive(t') && active.Some?
            else
              && |t'| == |t| && active == None
              && t'[i] == if t[i].status == Archived then t[i] else ArchivedRow(t[i], s.now)
  {
    assert AnyOpen(t) <==> exists k | 0 <= k < |t| :: t[k].status != Archived;
    NothingToRecoverIff(t, s.now);
    if exists k | 0 <= k < |t| :: CanBeRecovered(t[k]) {
      var k := RecoveryTakesPromotedLast(t, s.now);
      assert Recover(t, s.now).value[k].status == Active;
    }
  }

  /** An active strategy is checked against the drawdown it shows before the research. */
  lemma ActiveIsChecked(t: Table, a: nat, s: SyncInput)
    requires !s.forceRefresh && GetActive(t) == Some(a)
    ensures var t' := Health(t, s.firstDrawdown, MarketProfile(s.market), s.now);
            Settled(t, Some(a), s) == (t', GetActive(t'))
  {
    assert NotArchived(t[a]);
  }

  // ----- After the research -----

  lemma RecheckedDrawdown(t: Table, drawdown: real, g: Profile, now: Time, b: nat)
    requires AtMostOneActive(t) && GetActive(Health(t, drawdown, g, now)) == Some(b)
    requires g.drawdownPause <= g.drawdownRollback
    ensures var p := Health(t, drawdown, g, now)[b];
            || drawdown < g.drawdownPause || p.decision == PauseActive || p.decision == RollbackToPreviousStable
            || (p.promotedAt == Some(now) && drawdown >= g.drawdownRollback)
  {
    var t' := Health(t, drawdown, g, now);
    assert t'[b].status == Active;
    if t' == t {
      UniqueActive(t);
      HealthTouchesIff(t, b, drawdown, g, now);
    } else {
      var a := GetActive(t).value;
      UniqueActive(t);
      if drawdown >= g.drawdownRollback && exists k | 0 <= k < |t| :: t[k].status == Archived && t[k].promotedAt.Some? {
        var c := RollbackRestoresStable(t, a, drawdown, g, now);
      } else {
        PauseStepsDown(t, a, drawdown, g, now);
      }
    }
  }

  lemma FinishActsOnDrawdown(t: Table, s: SyncInput, a: nat)
    requires AtMostOneActive(t) && GetActive(Finish(t, GetActive(t), s)) == Some(a)
    ensures var p, g := Finish(t, GetActive(t), s)[a], MarketProfile(s.market);
            || s.lastDrawdown < g.drawdownPause || p.decision == PauseActive || p.decision == RollbackToPreviousStable
            || (p.promotedAt == Some(s.now) && s.lastDrawdown >= g.drawdownRollback)
  {
    var active := GetActive(t);
    if active.Some? {
      PromoteOverMockKeepsInvariant(t, active.value, s.now);
    }
    var t1 := if active.Some? then PromoteOverMock(t, active.value, s.now) else t;
    RecheckedDrawdown(t1, s.lastDrawdown, MarketProfile(s.market), s.now, a);
  }

  lemma FinishLeavesNobodyReady(t: Table, s: SyncInput, a: nat, i: nat)
    requires AtMostOneActive(t) && GetActive(Finish(t, GetActive(t), s)) == Some(a) && i < |t|
    requires s.lastDrawdown < MarketProfile(s.market).drawdownPause
    ensures var t' := Finish(t, GetActive(t), s);
            t'[a].sourceKind == Minimax || !ReadyOver(t'[i], t'[a]) || t'[i].finalScore == t'[a].finalScore
  {
    var t', active := Finish(t, GetActive(t), s), GetActive(t);
    UniqueActive(t);
    if active.Some? {
      var m := active.value;
      PromoteOverMockKeepsInvariant(t, m, s.now);
      UniqueActive(PromoteOverMock(t, m, s.now));
      if t[m].sourceKind == Minimax || forall k | 0 <= k < |t| :: !ReadyOver(t[k], t[m]) {
        NobodyTakesOver(t, m, s.now);
      } else {
        var c := BestReadyTakesOver(t, m, s.now);
        assert t'[c].status == Active && a == c;
        if ReadyOver(t'[i], t'[a]) {
          assert i != m && i != c && t'[i] == t[i];
          assert ReadyOver(t[i], t[m]);
        }
      }
    }
  }

  lemma HealthKeepsRejected(t: Table, drawdown: real, g: Profile, now: Time, i: nat)
    requires i < |t| && Health(t, drawdown, g, now)[i].status == Rejected
    ensures Health(t, drawdown, g, now)[i] == t[i]
  {
    if GetActive(t).Some? {
      var a := GetActive(t).value;
      assert Paused(t, a, PauseActive, PausedPendingReview, now)[a].status == Candidate;
      assert Paused(t, a, RollbackToPreviousStable, RolledBack, now)[a].status == Candidate;
    }
  }

  lemma PromoteOverMockKeepsRejected(t: Table, a: nat, now: Time, i: nat)
    requires a < |t| && i < |t| && PromoteOverMock(t, a, now)[i].status == Rejected
    ensures PromoteOverMock(t, a, now)[i] == t[i]
  {
  }

  lemma FinishKeepsRejected(t: Table, s: SyncInput, i: nat)
    requires i < |t| && Finish(t, GetActive(t), s)[i].status == Rejected
    ensures Finish(t, GetActive(t), s)[i] == t[i]
  {
    var active := GetActive(t);
    var t1 := if active.Some? then PromoteOverMock(t, active.value, s.now) else t;
    HealthKeepsRejected(t1, s.lastDrawdown, MarketProfile(s.market), s.now, i);
    if active.Some? {
      PromoteOverMockKeepsRejected(t, active.value, s.now, i);
    }
  }

  lemma HealthAddsCandidate(t: Table, drawdown: real, g: Profile, now: Time, i: nat)
    requires i < |t| && Health(t, drawdown, g, now)[i].status == Candidate
    ensures Health(t, drawdown, g, now)[i] == t[i] || (GetActive(t) == Some(i) && drawdown >= g.drawdownPause)
  {
  }

  lemma PromoteOverMockAddsNoCandidate(t: Table, a: nat, now: Time, i: nat)
    requires a < |t| && i < |t| && PromoteOverMock(t, a, now)[i].status == Candidate
    ensures PromoteOverMock(t, a, now)[i] == t[i]
  {
  }

  /** The steps after pruning make at most one more candidate: the strategy the last drawdown stops. */
  lemma FinishAddsCandidate(t: Table, s: SyncInput, i: nat)
    requires i < |t| && Finish(t, GetActive(t), s)[i].status == Candidate
    ensures var a := GetActive(t);
            var t1 := if a.Some? then PromoteOverMock(t, a.value, s.now) else t;
            || Finish(t, a, s)[i] == t[i]
            || (GetActive(t1) == Some(i) && s.lastDrawdown >= MarketProfile(s.market).drawdownPause)
  {
    var a := GetActive(t);
    var t1 := if a.Some? then PromoteOverMock(t, a.value, s.now) else t;
    HealthAddsCandidate(t1, s.lastDrawdown, MarketProfile(s.market), s.now, i);
    if a.Some? && t1[i].status == Candidate {
      PromoteOverMockAddsNoCandidate(t, a.value, s.now, i);
    }
  }

  /** A promotion over a mock can be taken back at once: beyond the rollback threshold the final health
      check restores the archived strategy promoted last, which is the mock just replaced unless some
      archived row was promoted after it. The candidate is left with its rollback. */
  lemma PromotionOverMockRollsBack(t: Table, a: nat, s: SyncInput) returns (c: nat)
    requires AtMostOneActive(t) && a < |t| && t[a].status == Active && t[a].sourceKind != Minimax
    requires exists i | 0 <= i < |t| :: ReadyOver(t[i], t[a])
    requires forall i | 0 <= i < |t| :: t[i].decidedAt <= s.now
    requires forall i | 0 <= i < |t| && t[i].status == Archived && t[i].promotedAt.Some? :: PromotedAfter(t[a], t[i])
    requires s.lastDrawdown >= MarketProfile(s.market).drawdownRollback
    ensures c < |t| && ReadyOver(t[c], t[a])
    ensures var t' := Finish(t, Some(a), s);
            && t'[a].status == Active && t'[a].promotedAt == Some(s.now)
            && t'[c].status == Candidate && t'[c].decision == RollbackToPreviousStable && t'[c].phase == RolledBack
            && forall i | 0 <= i < |t| :: t'[i].status == Active <==> i == a
  {
    UniqueActive(t);
    c := BestReadyTakesOver(t, a, s.now);
    PromoteOverMockKeepsInvariant(t, a, s.now);
    var t1 := PromoteOverMock(t, a, s.now);
    var b := RollbackRestoresStable(t1, c, s.lastDrawdown, MarketProfile(s.market), s.now);
    assert !PromotedAfter(t1[a], t1[b]);
    assert b == a;
  }
}
