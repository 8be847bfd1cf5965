/** Whole synchronisations and runs of them (`sync_agent_state` in
    src/openhamster/api/services.py). A synchronisation is taken to finish without raising. */
module ProposalSync {
  import opened Prelude
  import opened Governance
  import opened Ranking
  import opened ProposalTable
  import opened ProposalLifecycle
  import opened ProposalPruning
  import opened ProposalOutcomes

  datatype Round = Round(input: SyncInput, retention: Retention)

  /** The candidates pruned are those of the active strategy's symbol. */
  function PruneScope(t: Table, active: Option<nat>, fallback: string, r: Round): Scope
    requires active.Some? ==> active.value < |t|
  {
    Scope(if active.Some? then t[active.value].symbol else fallback, r.input.market, r.input.now, r.retention)
  }

  /** The symbol remembered before the research batches. */
  function CurrentSymbol(t: Table, r: Round): string {
    var (t1, active) := Prepare(t, r.input);
    if active.Some? then t1[active.value].symbol else r.input.firstSymbol
  }

  /** The table after a completed synchronisation. */
  function Sync(t: Table, r: Round): Table {
    var (t1, active) := Researched(t, r.input);
    var t2 := Prune(t1, PruneScope(t1, active, CurrentSymbol(t, r), r));
    Finish(t2, active, r.input)
  }

  function Run(t: Table, rounds: seq<Round>): Table {
    if rounds == [] then t else Sync(Run(t, rounds[..|rounds| - 1]), rounds[|rounds| - 1])
  }

  predicate BatchesUniform(r: Round) {
    forall i | 0 <= i < |r.input.batches| :: Uniform(r.input.batches[i])
  }

  lemma SyncKeepsInvariant(t: Table, r: Round)
    requires AtMostOneActive(t) && BatchesUniform(r)
    ensures AtMostOneActive(Sync(t, r))
  {
    PrepareKeepsInvariant(t, r.input);
    var (t0, before) := Prepare(t, r.input);
    MaterializeAllKeepsInvariant(t0, r.input.batches);
    var (t1, active) := Researched(t, r.input);
    var scope := PruneScope(t1, active, CurrentSymbol(t, r), r);
    PruneKeepsInvariant(t1, scope);
    FinishKeepsInvariant(Prune(t1, scope), r.input);
  }

  /** After any number of completed synchronisations from an empty table, whatever scores, symbols,
      drawdowns and times they saw, at most one proposal is active, and it has been promoted. */
  lemma {:induction false} NeverTwoActive(rounds: seq<Round>)
    requires forall i | 0 <= i < |rounds| :: BatchesUniform(rounds[i])
    ensures AtMostOneActive(Run([], rounds))
  {
    if rounds != [] {
      NeverTwoActive(rounds[..|rounds| - 1]);
      SyncKeepsInvariant(Run([], rounds[..|rounds| - 1]), rounds[|rounds| - 1]);
    }
  }

  // ----- What a completed synchronisation leaves -----

  /** The rows that the research adds. */
  function BlueprintCount(batches: seq<Batch>): nat {
    if batches == [] then 0 else |batches[0].blueprints| + BlueprintCount(batches[1..])
  }

  lemma {:induction false} ResearchAddsRows(t: Table, previous: Option<nat>, batches: seq<Batch>)
    requires previous.Some? ==> previous.value < |t|
    ensures |MaterializeAll(t, previous, batches).0| == |t| + BlueprintCount(batches)
    decreases |batches|
  {
    if batches != [] {
      var t' := Materialize(t, previous, batches[0]);
      ResearchAddsRows(t', GetActive(t'), batches[1..]);
    }
  }

  /** The table before pruning, its active strategy, and the table after pruning. */
  lemma PrunedKeepsInvariant(t: Table, r: Round)
    requires AtMostOneActive(t) && BatchesUniform(r)
    ensures var (t1, active) := Researched(t, r.input);
            var t2 := Prune(t1, PruneScope(t1, active, CurrentSymbol(t, r), r));
            AtMostOneActive(t2) && active == GetActive(t2)
  {
    PrepareKeepsInvariant(t, r.input);
    var (t0, before) := Prepare(t, r.input);
    MaterializeAllKeepsInvariant(t0, r.input.batches);
    var (t1, active) := Researched(t, r.input);
    PruneKeepsInvariant(t1, PruneScope(t1, active, CurrentSymbol(t, r), r));
  }

  /** Every blueprint of every symbol ends up in the table, and no row leaves it. */
  lemma SyncAddsRows(t: Table, r: Round)
    ensures |Sync(t, r)| == |t| + BlueprintCount(r.input.batches)
  {
    SettledKeepsRows(Scoped(t, r.input), GetActive(t), r.input);
    var (t0, before) := Prepare(t, r.input);
    ResearchAddsRows(t0, before, r.input.batches);
  }

  lemma SettledKeepsRows(t: Table, active: Option<nat>, s: SyncInput)
    requires active.Some? ==> active.value < |t|
    ensures |Settled(t, active, s).0| == |t|
  {
  }

  /** The final drawdown is always acted on: below the pause threshold, or the active strategy's latest
      decision is a pause or rollback already, or it has just been restored. */
  lemma SyncActsOnDrawdown(t: Table, r: Round, a: nat)
    requires AtMostOneActive(t) && BatchesUniform(r) && GetActive(Sync(t, r)) == Some(a)
    ensures var p, s := Sync(t, r)[a], r.input;
            || s.lastDrawdown < MarketProfile(s.market).drawdownPause
            || p.decision == PauseActive || p.decision == RollbackToPreviousStable
            || (p.promotedAt == Some(s.now) && s.lastDrawdown >= MarketProfile(s.market).drawdownRollback)
  {
    PrunedKeepsInvariant(t, r);
    var (t1, active) := Researched(t, r.input);
    var t2 := Prune(t1, PruneScope(t1, active, CurrentSymbol(t, r), r));
    FinishActsOnDrawdown(t2, r.input, a);
  }

  /** While the drawdown stays below the pause threshold, no ready candidate outscores the strategy left
      active, unless that strategy came from the real model. */
  lemma SyncLeavesNobodyReady(t: Table, r: Round, a: nat, i: nat)
    requires AtMostOneActive(t) && BatchesUniform(r) && GetActive(Sync(t, r)) == Some(a) && i < |Sync(t, r)|
    requires r.input.lastDrawdown < MarketProfile(r.input.market).drawdownPause
    ensures var t' := Sync(t, r);
            t'[a].sourceKind == Minimax || !ReadyOver(t'[i], t'[a]) || t'[i].finalScore == t'[a].finalScore
  {
    PrunedKeepsInvariant(t, r);
    var (t1, active) := Researched(t, r.input);
    var t2 := Prune(t1, PruneScope(t1, active, CurrentSymbol(t, r), r));
    FinishLeavesNobodyReady(t2, r.input, a, i);
  }

  /** The symbol whose candidates are pruned: the active strategy's after the research, or else its one
      before the research, or else the first to be researched. */
  function PrunedSymbol(t: Table, r: Round): string {
    var (t0, before) := Prepare(t, r.input);
    var (t1, active) := MaterializeAll(t0, before, r.input.batches);
    if active.Some? then t1[active.value].symbol
    else if before.Some? then t0[before.value].symbol
    else r.input.firstSymbol
  }

  /** The candidates of a symbol and market in neither of the two phases that wait for a decision. */
  function Waiting(t: Table, symbol: string, market: Market): set<nat> {
    set i: nat | && i < |t| && t[i].status == Candidate && t[i].symbol == symbol && t[i].market == market
                 && t[i].phase != CandidateCooldown && t[i].phase != PausedPendingReview
  }

  lemma FinishKeepsLimit(t: Table, s: SyncInput, symbol: string)
    ensures var t' := Finish(t, GetActive(t), s);
            && |Waiting(t', symbol, s.market)| <= |Waiting(t, symbol, s.market)| + 1
            && (s.lastDrawdown < MarketProfile(s.market).drawdownPause ==>
                  |Waiting(t', symbol, s.market)| <= |Waiting(t, symbol, s.market)|)
  {
    var a, t' := GetActive(t), Finish(t, GetActive(t), s);
    var t1 := if a.Some? then PromoteOverMock(t, a.value, s.now) else t;
    var stopped := if GetActive(t1).Some? && s.lastDrawdown >= MarketProfile(s.market).drawdownPause
                   then {GetActive(t1).value} else {};
    var left, right := Waiting(t', symbol, s.market), Waiting(t, symbol, s.market);
    forall i | i in left
      ensures i in right + stopped
    {
      FinishAddsCandidate(t, s, i);
    }
    SubsetSize(left, right + stopped);
  }

  /** A completed synchronisation leaves at most the retention limit of those candidates, and one more
      only if the last drawdown reaches the pause threshold. */
  lemma SyncRespectsLimit(t: Table, r: Round)
    requires AtMostOneActive(t) && BatchesUniform(r)
    ensures var left := |Waiting(Sync(t, r), PrunedSymbol(t, r), r.input.market)|;
            && left <= Max(1, r.retention.candidateLimit) + 1
            && (r.input.lastDrawdown < MarketProfile(r.input.market).drawdownPause ==>
                  left <= Max(1, r.retention.candidateLimit))
  {
    PrunedKeepsInvariant(t, r);
    var (t1, active) := Researched(t, r.input);
    var scope := PruneScope(t1, active, CurrentSymbol(t, r), r);
    var t2 := Prune(t1, scope);
    assert scope.symbol == PrunedSymbol(t, r);
    PruneRespectsLimit(t1, scope);
    assert Waiting(t2, scope.symbol, scope.market) == UnprotectedLeft(t2, scope);
    FinishKeepsLimit(t2, r.input, scope.symbol);
  }

  /** No rejected row outlives its retention. */
  lemma SyncRetainsNoOldRejected(t: Table, r: Round, i: nat)
    requires AtMostOneActive(t) && BatchesUniform(r) && i < |Sync(t, r)| && Sync(t, r)[i].status == Rejected
    ensures Sync(t, r)[i].createdAt >= r.input.now - Max(0, r.retention.rejectedDays) * 86_400
  {
    PrunedKeepsInvariant(t, r);
    var (t1, active) := Researched(t, r.input);
    var scope := PruneScope(t1, active, CurrentSymbol(t, r), r);
    var t2 := Prune(t1, scope);
    FinishKeepsRejected(t2, r.input, i);
    PrunesExactly(t1, scope, i);
  }
}
