/** The database rows of the proposals and the functions of src/openhamster/api/services.py that
    change them in place. Each method is proved against the function on tables of the same step. */
module ProposalStore {
  import opened Prelude
  import opened Governance
  import opened Ranking
  import opened ProposalTable
  import opened ProposalLifecycle
  import opened ProposalPruning
  import opened ProposalSync

  class Store {
    var rows: Table

    constructor ()
      ensures rows == []
    {
      rows := [];
    }

    /** The loop of the three archive functions. */
    method ArchiveMatching(qualifies: Proposal -> bool, now: Time)
      modifies this
      ensures rows == ArchiveWhere(old(rows), qualifies, now)
    {
      for i := 0 to |rows|
        invariant |rows| == |old(rows)|
        invariant forall j | 0 <= j < i :: rows[j] == ArchiveWhere(old(rows), qualifies, now)[j]
        invariant forall j | i <= j < |rows| :: rows[j] == old(rows)[j]
      {
        if qualifies(rows[i]) {
          rows := rows[i := Archive(rows[i], now)];
        }
      }
    }

    method RecoverActiveStrategy(now: Time) returns (recovered: Option<nat>)
      modifies this
      ensures Recover(old(rows), now).None? ==> recovered == None && rows == old(rows)
      ensures Recover(old(rows), now).Some? ==>
                rows == Recover(old(rows), now).value && recovered == GetActive(rows) && recovered.Some?
    {
      var candidate := First(rows, Recoverable, PromotedKey);
      if candidate.None? {
        return None;
      }
      var c := candidate.value;
      rows := rows[c := rows[c].(status := Active)];
      rows := rows[c := rows[c].(archivedAt := None)];
      rows := rows[c := rows[c].(updatedAt := now)];
      recovered := GetActive(rows);
      assert rows[c].status == Active;
    }

    method EvaluateActiveStrategyHealth(drawdown: real, g: Profile, now: Time)
      modifies this
      ensures rows == Health(old(rows), drawdown, g, now)
    {
      var active := GetActive(rows);
      if active.None? {
        return;
      }
      var a := active.value;
      if rows[a].decision == PauseActive || rows[a].decision == RollbackToPreviousStable {
        return;
      }
      if drawdown < g.drawdownPause {
        return;
      }
      var previousStable := First(rows, PreviouslyStable, PromotedKey);
      var action, phase := PauseActive, PausedPendingReview;
      if drawdown >= g.drawdownRollback && previousStable.Some? {
        var b := previousStable.value;
        rows := rows[a := rows[a].(status := Candidate, updatedAt := now)];
        rows := rows[b := rows[b].(status := Active, promotedAt := Some(now), updatedAt := now)];
        action, phase := RollbackToPreviousStable, RolledBack;
      } else if drawdown >= g.drawdownPause {
        rows := rows[a := rows[a].(status := Candidate, updatedAt := now)];
      }
      rows := rows[a := RecordDecision(rows[a], action, phase, now)];
    }

    method PromoteExistingOverMock(a: nat, now: Time) returns (promoted: Option<nat>)
      requires a < |rows|
      modifies this
      ensures rows == PromoteOverMock(old(rows), a, now)
      ensures promoted.Some? ==> promoted.value < |rows| && rows[promoted.value].status == Active
    {
      if rows[a].sourceKind == Minimax {
        return None;
      }
      var challenger := First(rows, Challenges(rows[a]), ScoreKey);
      if challenger.None? {
        return None;
      }
      var c := challenger.value;
      rows := rows[a := Archive(rows[a], now)];
      rows := rows[c := rows[c].(status := Active, promotedAt := Some(now), updatedAt := now)];
      rows := rows[c := RecordDecision(rows[c], PromoteToPaper, PromotionReady, now)];
      promoted := challenger;
    }

    method MaterializeProposals(previous: Option<nat>, batch: Batch)
      requires previous.Some? ==> previous.value < |rows|
      modifies this
      ensures rows == Materialize(old(rows), previous, batch)
    {
      var context := if previous.Some? then Some(ContextOf(rows[previous.value])) else None;
      var replacementPromoted := false;
      ghost var start := BatchState(rows, context, false);
      for i := 0 to |batch.blueprints|
        invariant BatchState(rows, context, replacementPromoted) == AddBlueprints(start, batch, i)
      {
        var proposal := NewProposal(batch, batch.blueprints[i], context);
        rows := rows + [proposal];
        if proposal.status == Active {
          replacementPromoted := true;
          context := Some(ContextOf(proposal));
        }
      }
      if replacementPromoted && previous.Some? {
        rows := rows[previous.value := Archive(rows[previous.value], batch.now)];
      }
    }

    /** The second loop of `prune_strategy_proposals`: archives aged candidates and lists the others. */
    method ArchiveAgedCandidates(s: Scope) returns (survivors: seq<nat>)
      modifies this
      ensures rows == ArchiveWhere(old(rows), AgedInPool(s), s.now)
      ensures survivors == SurvivorList(old(rows), s, |old(rows)|)
    {
      ghost var t := rows;
      survivors := [];
      for i := 0 to |rows|
        invariant |rows| == |t|
        invariant survivors == SurvivorList(t, s, i)
        invariant forall j | 0 <= j < i :: rows[j] == ArchiveWhere(t, AgedInPool(s), s.now)[j]
        invariant forall j | i <= j < |t| :: rows[j] == t[j]
      {
        assert rows[i] == t[i];
        if InPool(rows[i], s) {
          if Aged(rows[i], s) {
            rows := rows[i := Archive(rows[i], s.now)];
          } else {
            survivors := survivors + [i];
          }
        }
      }
    }

    /** Its third loop: archives what is ranked behind the limit and not protected. */
    method ArchiveOverflow(ranked: seq<nat>, s: Scope)
      requires forall k | 0 <= k < |ranked| :: ranked[k] < |rows|
      requires Distinct(ranked)
      modifies this
      ensures |rows| == |old(rows)|
      ensures forall j | 0 <= j < |rows| ::
                rows[j] == if !Protected(old(rows)[j]) && InTail(ranked, Limit(s), |ranked|, j)
                           then Archive(old(rows)[j], s.now) else old(rows)[j]
    {
      ghost var t := rows;
      var start := if Limit(s) <= |ranked| then Limit(s) else |ranked|;
      for k := start to |ranked|
        invariant |rows| == |t|
        invariant forall j | 0 <= j < |t| ::
                    rows[j] == if !Protected(t[j]) && InTail(ranked, Limit(s), k, j)
                               then Archive(t[j], s.now) else t[j]
      {
        assert !InTail(ranked, Limit(s), k, ranked[k]);
        assert forall j :: InTail(ranked, Limit(s), k + 1, j) <==> InTail(ranked, Limit(s), k, j) || j == ranked[k];
        if !Protected(rows[ranked[k]]) {
          rows := rows[ranked[k] := Archive(rows[ranked[k]], s.now)];
        }
      }
    }

    method PruneStrategyProposals(s: Scope)
      modifies this
      ensures rows == Prune(old(rows), s)
    {
      var t := rows;
      ArchiveMatching((p: Proposal) => OldRejected(p, s), s.now);
      RejectedDoNotSurvive(t, rows, s, |t|);
      var survivors := ArchiveAgedCandidates(s);
      var ranked := SortDescending(RowKey(t), survivors);
      RankedIsSorted(t, s);
      SortedIsDistinct(RowKey(t), ranked);
      assert forall k | 0 <= k < |ranked| :: ranked[k] in Elements(ranked);
      ArchiveOverflow(ranked, s);
      forall j: nat | j < |t| ensures rows[j] == Prune(t, s)[j] {
        OverflowIsTail(t, s, j);
      }
    }

    method SettleActive(active: Option<nat>, s: SyncInput) returns (settled: Option<nat>)
      requires active.Some? ==> active.value < |rows|
      modifies this
      ensures (rows, settled) == Settled(old(rows), active, s)
    {
      settled := active;
      var open := AnyOpen(rows);
      if s.forceRefresh {
        if active.Some? {
          ArchiveMatching(NotActiveNorArchived, s.now);
        } else {
          ArchiveMatching(NotArchived, s.now);
        }
      } else if open && active.None? {
        settled := RecoverActiveStrategy(s.now);
        if settled.None? {
          ArchiveMatching(NotArchived, s.now);
        }
      } else if open && active.Some? {
        EvaluateActiveStrategyHealth(s.firstDrawdown, MarketProfile(s.market), s.now);
        settled := GetActive(rows);
      }
    }

    /** All database steps of `sync_agent_state`, in its order. */
    method SyncAgentState(r: Round)
      modifies this
      ensures rows == Sync(old(rows), r)
    {
      var s := r.input;
      var active := GetActive(rows);
      var firstSymbol := if active.Some? then rows[active.value].symbol else s.firstSymbol;
      ArchiveMatching(OutOfScope(firstSymbol, s.market), s.now);
      active := SettleActive(active, s);
      var currentSymbol := if active.Some? then rows[active.value].symbol else s.firstSymbol;
      for i := 0 to |s.batches|
        invariant active.Some? ==> 0 <= active.value < |rows|
        invariant MaterializeAll(rows, active, s.batches[i..]) == Researched(old(rows), s)
      {
        MaterializeProposals(active, s.batches[i]);
        active := GetActive(rows);
      }
      PruneStrategyProposals(PruneScope(rows, active, currentSymbol, r));
      if active.Some? {
        var promoted := PromoteExistingOverMock(active.value, s.now);
      }
      EvaluateActiveStrategyHealth(s.lastDrawdown, MarketProfile(s.market), s.now);
    }
  }
}
