/** The life of a proposal across synchronisations (src/openhamster/api/services.py): batches of
    new proposals, drawdown pauses and rollbacks, recovery, promotion over a mock, archiving.

    Every step that the source performs on the rows in place is a method of `ProposalStore`,
    proved against a function on the table. Nowhere does the source check that at most one
    proposal is active; it follows from the order of the steps, as proved at the end. */
module ProposalLifecycle {
  import opened Prelude
  import opened Governance
  import opened Ranking
  import opened ProposalTable

  // ==================== The steps as functions ====================

  predicate NotArchived(p: Proposal) {
    p.status != Archived
  }

  predicate NotActiveNorArchived(p: Proposal) {
    p.status != Archived && p.status != Active
  }

  function OutOfScope(symbol: string, market: Market): Proposal -> bool {
    (p: Proposal) => NotActiveNorArchived(p) && (p.symbol != symbol || p.market != market)
  }

  predicate Recoverable(p: Proposal) {
    p.sourceKind != Mock && p.promotedAt.Some?
  }

  /** `recover_active_strategy`; None when nothing can be recovered. */
  function Recover(t: Table, now: Time): Option<Table> {
    var k := First(t, Recoverable, PromotedKey);
    if k.None? then None
    else Some(t[k.value := t[k.value].(status := Active, archivedAt := None, updatedAt := now)])
  }

  predicate PreviouslyStable(p: Proposal) {
    p.status == Archived && p.promotedAt.Some?
  }

  /** The active strategy `a` steps down to candidate. */
  function Paused(t: Table, a: nat, action: Action, phase: Phase, now: Time): (t': Table)
    requires a < |t|
    ensures |t'| == |t|
  {
    t[a := RecordDecision(t[a].(status := Candidate, updatedAt := now), action, phase, now)]
  }

  /** The previous stable strategy `b` takes over. */
  function Restored(t: Table, b: nat, now: Time): (t': Table)
    requires b < |t|
    ensures |t'| == |t|
  {
    t[b := t[b].(status := Active, promotedAt := Some(now), updatedAt := now)]
  }

  /** `evaluate_active_strategy_health` once the live drawdown is known. */
  function Health(t: Table, drawdown: real, g: Profile, now: Time): (t': Table)
    ensures |t'| == |t|
  {
    var active := GetActive(t);
    if active.None? then t
    else
      var a := active.value;
      if t[a].decision == PauseActive || t[a].decision == RollbackToPreviousStable then t
      else if drawdown < g.drawdownPause then t
      else
        var previous := First(t, PreviouslyStable, PromotedKey);
        if drawdown >= g.drawdownRollback && previous.Some? then
          Restored(Paused(t, a, RollbackToPreviousStable, RolledBack, now), previous.value, now)
        else
          Paused(t, a, PauseActive, PausedPendingReview, now)
  }

  /** The candidates that may replace a mock active strategy. */
  function Challenges(active: Proposal): Proposal -> bool {
    (p: Proposal) =>
      && p.status == Candidate
      && p.symbol == active.symbol && p.market == active.market
      && p.sourceKind != Mock && p.providerReady
      && p.finalScore >= MarketProfile(active.market).promoteThreshold
      && p.finalScore >= active.finalScore
  }

  /** `_promote_existing_real_candidate_over_mock_active`. */
  function PromoteOverMock(t: Table, a: nat, now: Time): (t': Table)
    requires a < |t|
    ensures |t'| == |t|
  {
    if t[a].sourceKind == Minimax then t
    else
      var challenger := First(t, Challenges(t[a]), ScoreKey);
      if challenger.None? then t
      else
        var c := challenger.value;
        var t1 := t[a := Archive(t[a], now)];
        t1[c := RecordDecision(t1[c].(status := Active, promotedAt := Some(now), updatedAt := now),
                               PromoteToPaper, PromotionReady, now)]
  }

  /** What the research agents deliver for one proposal. */
  datatype Blueprint = Blueprint(
    sourceKind: SourceKind,
    providerReady: bool,
    finalScore: int,
    bottomLinePassed: bool,
    gate: Gate,
    knowledge: seq<KnowledgeReason>,
    canReplace: bool)

  datatype Batch = Batch(
    symbol: string,
    market: Market,
    now: Time,
    macroDegraded: bool,
    policy: Policy,
    blueprints: seq<Blueprint>)

  function ContextOf(p: Proposal): ActiveContext {
    ActiveContext(p.finalScore, p.sourceKind, p.promotedAt)
  }

  function ContextFor(t: Table, previous: Option<nat>): Option<ActiveContext>
    requires previous.Some? ==> previous.value < |t|
  {
    if previous.Some? then Some(ContextOf(t[previous.value])) else None
  }

  function ReviewOf(batch: Batch, b: Blueprint, context: Option<ActiveContext>): Review {
    Review(b.finalScore, b.bottomLinePassed, context, batch.macroDegraded, batch.now, b.sourceKind,
           Some(b.gate), b.knowledge)
  }

  /** The row written for a blueprint. */
  function NewProposal(batch: Batch, b: Blueprint, context: Option<ActiveContext>): Proposal {
    var g := MarketProfile(batch.market);
    var r := ReviewOf(batch, b, context);
    var (status, action) := Decide(r, g, batch.policy);
    Proposal(batch.symbol, batch.market, b.sourceKind, b.providerReady, b.finalScore, status,
             batch.now, batch.now,
             if status == Active then Some(batch.now) else None,
             if status == Rejected then Some(batch.now) else None,
             action, batch.now, LifecyclePhase(r, g, action),
             b.gate.eligible, b.canReplace, b.knowledge != [],
             PromotionBlockedReasons(r, g, batch.policy) != [])
  }

  /** The loop state of `materialize_proposals_and_decisions`. */
  datatype BatchState = BatchState(table: Table, context: Option<ActiveContext>, promoted: bool)

  function AddProposal(s: BatchState, p: Proposal): (s': BatchState)
    ensures s'.table == s.table + [p]
  {
    if p.status == Active then BatchState(s.table + [p], Some(ContextOf(p)), true)
    else s.(table := s.table + [p])
  }

  /** The state after one more blueprint. */
  function AddNext(s: BatchState, batch: Batch, n: nat): (s': BatchState)
    requires n < |batch.blueprints|
    ensures |s'.table| == |s.table| + 1
  {
    AddProposal(s, NewProposal(batch, batch.blueprints[n], s.context))
  }

  /** The state after the first `n` blueprints. */
  function AddBlueprints(s: BatchState, batch: Batch, n: nat): (s': BatchState)
    requires n <= |batch.blueprints|
    ensures |s'.table| == |s.table| + n
  {
    if n == 0 then s else AddNext(AddBlueprints(s, batch, n - 1), batch, n - 1)
  }

  function Materialize(t: Table, previous: Option<nat>, batch: Batch): (t': Table)
    requires previous.Some? ==> previous.value < |t|
    ensures |t'| == |t| + |batch.blueprints|
  {
    var start := BatchState(t, ContextFor(t, previous), false);
    var s := AddBlueprints(start, batch, |batch.blueprints|);
    if s.promoted && previous.Some? then
      s.table[previous.value := Archive(s.table[previous.value], batch.now)]
    else s.table
  }

  /** The symbols are researched one after the other; each sees the active strategy of its time. */
  function MaterializeAll(t: Table, previous: Option<nat>, batches: seq<Batch>): (r: (Table, Option<nat>))
    requires previous.Some? ==> previous.value < |t|
    ensures r.1.Some? ==> r.1.value < |r.0|
    decreases |batches|
  {
    if batches == [] then (t, previous)
    else
      var t' := Materialize(t, previous, batches[0]);
      MaterializeAll(t', GetActive(t'), batches[1..])
  }

  // ==================== One synchronisation ====================

  /** Everything a synchronisation takes from outside. */
  datatype SyncInput = SyncInput(
    forceRefresh: bool,
    market: Market,
    firstSymbol: string,
    now: Time,
    firstDrawdown: real,
    batches: seq<Batch>,
    lastDrawdown: real)

  /** Archives what is out of scope of the active strategy. */
  function Scoped(t: Table, s: SyncInput): (t': Table)
    ensures |t'| == |t|
  {
    var active := GetActive(t);
    var symbol := if active.Some? then t[active.value].symbol else s.firstSymbol;
    ArchiveWhere(t, OutOfScope(symbol, s.market), s.now)
  }

  predicate AnyOpen(t: Table) {
    exists i | 0 <= i < |t| :: NotArchived(t[i])
  }

  /** Settles which strategy is active before the research starts. */
  function Settled(t: Table, active: Option<nat>, s: SyncInput): (r: (Table, Option<nat>))
    requires active.Some? ==> active.value < |t|
    ensures r.1.Some? ==> r.1.value < |r.0|
  {
    if s.forceRefresh then
      (ArchiveWhere(t, if active.Some? then NotActiveNorArchived else NotArchived, s.now), active)
    else if !AnyOpen(t) then (t, active)
    else if active.Some? then
      var t' := Health(t, s.firstDrawdown, MarketProfile(s.market), s.now);
      (t', GetActive(t'))
    else
      var recovered := Recover(t, s.now);
      if recovered.Some? then (recovered.value, GetActive(recovered.value))
      else (ArchiveWhere(t, NotArchived, s.now), active)
  }

  /** The steps of `sync_agent_state` before the research batches: the table, and the strategy
      taken to be active from then on. */
  function Prepare(t: Table, s: SyncInput): (r: (Table, Option<nat>))
    ensures r.1.Some? ==> r.1.value < |r.0|
  {
    Settled(Scoped(t, s), GetActive(t), s)
  }

  /** The table right before pruning, and the active strategy. */
  function Researched(t: Table, s: SyncInput): (r: (Table, Option<nat>))
    ensures r.1.Some? ==> r.1.value < |r.0|
  {
    var (t1, active) := Prepare(t, s);
    MaterializeAll(t1, active, s.batches)
  }

  /** The steps after pruning. */
  function Finish(t: Table, active: Option<nat>, s: SyncInput): (t': Table)
    requires active.Some? ==> active.value < |t|
    ensures |t'| == |t|
  {
    var t1 := if active.Some? then PromoteOverMock(t, active.value, s.now) else t;
    Health(t1, s.lastDrawdown, MarketProfile(s.market), s.now)
  }

  // ==================== What every step keeps ====================

  lemma Demote(t: Table, a: nat, p: Proposal)
    requires AtMostOneActive(t) && GetActive(t) == Some(a) && p.status != Active
    ensures NoneActive(t[a := p])
  {
  }

  lemma Activate(t: Table, b: nat, p: Proposal)
    requires NoneActive(t) && b < |t| && p.status == Active && p.promotedAt.Some?
    ensures AtMostOneActive(t[b := p]) && GetActive(t[b := p]) == Some(b)
  {
    UniqueActive(t[b := p]);
    assert t[b := p][b].status == Active;
  }

  lemma PausedLeavesNone(t: Table, a: nat, action: Action, phase: Phase, now: Time)
    requires AtMostOneActive(t) && GetActive(t) == Some(a)
    ensures NoneActive(Paused(t, a, action, phase, now))
  {
    Demote(t, a, RecordDecision(t[a].(status := Candidate, updatedAt := now), action, phase, now));
  }

  lemma RestoredIsOne(t: Table, b: nat, now: Time)
    requires NoneActive(t) && b < |t|
    ensures AtMostOneActive(Restored(t, b, now))
  {
    Activate(t, b, t[b].(status := Active, promotedAt := Some(now), updatedAt := now));
  }

  lemma HealthKeepsInvariant(t: Table, drawdown: real, g: Profile, now: Time)
    requires AtMostOneActive(t)
    ensures AtMostOneActive(Health(t, drawdown, g, now))
  {
    var active, previous := GetActive(t), First(t, PreviouslyStable, PromotedKey);
    if active.Some? {
      PausedLeavesNone(t, active.value, PauseActive, PausedPendingReview, now);
      PausedLeavesNone(t, active.value, RollbackToPreviousStable, RolledBack, now);
      if previous.Some? {
        RestoredIsOne(Paused(t, active.value, RollbackToPreviousStable, RolledBack, now), previous.value, now);
      }
    }
  }

  lemma RecoverKeepsInvariant(t: Table, now: Time)
    requires NoneActive(t)
    ensures Recover(t, now).Some? ==> AtMostOneActive(Recover(t, now).value)
  {
  }

  lemma PromoteOverMockKeepsInvariant(t: Table, a: nat, now: Time)
    requires AtMostOneActive(t) && GetActive(t) == Some(a)
    ensures AtMostOneActive(PromoteOverMock(t, a, now))
  {
    var challenger := First(t, Challenges(t[a]), ScoreKey);
    if t[a].sourceKind != Minimax && challenger.Some? {
      var c, t1 := challenger.value, t[a := Archive(t[a], now)];
      Demote(t, a, Archive(t[a], now));
      Activate(t1, c, RecordDecision(t1[c].(status := Active, promotedAt := Some(now), updatedAt := now),
                                     PromoteToPaper, PromotionReady, now));
    }
  }

  // ----- What a batch promotes -----

  predicate Promotes(batch: Batch, context: Option<ActiveContext>, i: nat)
    requires i < |batch.blueprints|
  {
    Decide(ReviewOf(batch, batch.blueprints[i], context), MarketProfile(batch.market), batch.policy).0 == Active
  }

  /** Blueprint `j` passes its gates, is no mock, and scores no lower than the mock `i`. */
  predicate Overtakes(batch: Batch, i: nat, j: nat)
    requires i < |batch.blueprints| && j < |batch.blueprints|
  {
    var a, b := batch.blueprints[i], batch.blueprints[j];
    && PassesGates(ReviewOf(batch, b, None), MarketProfile(batch.market), batch.policy)
    && a.sourceKind == Mock && b.sourceKind != Mock && b.finalScore >= a.finalScore
  }

  /** The blueprints promoted so far. */
  datatype Promotions = Nobody | One(first: nat) | Two(first: nat, second: nat)

  function PromotionsTo(batch: Batch, context: Option<ActiveContext>, n: nat): (p: Promotions)
    requires n <= |batch.blueprints|
    ensures !p.Nobody? ==> p.first < n && Promotes(batch, context, p.first)
    ensures p.Two? ==> p.first < p.second < n && Overtakes(batch, p.first, p.second)
  {
    if n == 0 then Nobody
    else
      var p := PromotionsTo(batch, context, n - 1);
      match p
      case Nobody => if Promotes(batch, context, n - 1) then One(n - 1) else Nobody
      case One(i) => if Overtakes(batch, i, n - 1) then Two(i, n - 1) else p
      case Two(_, _) => p
  }

  predicate Promoted(p: Promotions, i: nat) {
    (!p.Nobody? && i == p.first) || (p.Two? && i == p.second)
  }

  function ContextAt(batch: Batch, i: nat): ActiveContext
    requires i < |batch.blueprints|
  {
    ActiveContext(batch.blueprints[i].finalScore, batch.blueprints[i].sourceKind, Some(batch.now))
  }

  /** The context the next blueprint is judged in. */
  function ContextTo(batch: Batch, context: Option<ActiveContext>, n: nat): Option<ActiveContext>
    requires n <= |batch.blueprints|
  {
    match PromotionsTo(batch, context, n)
    case Nobody => context
    case One(i) => Some(ContextAt(batch, i))
    case Two(_, j) => Some(ContextAt(batch, j))
  }

  /** The next row is active exactly when the promotions grow. */
  lemma NextIsPromotedIff(batch: Batch, context: Option<ActiveContext>, n: nat)
    requires n < |batch.blueprints|
    ensures Promotes(batch, ContextTo(batch, context, n), n)
       <==> Promoted(PromotionsTo(batch, context, n + 1), n)
  {
    if !PromotionsTo(batch, context, n).Nobody? {
      SecondPromotionIff(ReviewOf(batch, batch.blueprints[n], ContextTo(batch, context, n)),
                         MarketProfile(batch.market), batch.policy);
    }
  }

  lemma RowOf(batch: Batch, i: nat, context: Option<ActiveContext>)
    requires i < |batch.blueprints|
    ensures var p := NewProposal(batch, batch.blueprints[i], context);
            && (p.status == Active <==> Promotes(batch, context, i))
            && (p.status == Active ==> p.promotedAt == Some(batch.now) && ContextOf(p) == ContextAt(batch, i))
  {
  }

  /** Of the rows from `size` on, exactly those promoted are active, and they have been promoted. */
  predicate RowsPromoted(table: Table, size: nat, p: Promotions) {
    forall i | size <= i < |table| ::
      && (table[i].status == Active <==> Promoted(p, i - size))
      && (table[i].status == Active ==> table[i].promotedAt.Some?)
  }

  /** The loop state is that of the promotions. */
  ghost predicate BatchOutcome(start: BatchState, batch: Batch, n: nat, s: BatchState)
    requires n <= |batch.blueprints|
  {
    var size, p := |start.table|, PromotionsTo(batch, start.context, n);
    && |s.table| == size + n && s.table[..size] == start.table
    && s.promoted == !p.Nobody? && s.context == ContextTo(batch, start.context, n)
    && RowsPromoted(s.table, size, p)
  }

  /** Promotions only grow, and only by the blueprint just added. */
  lemma PromotionsGrow(batch: Batch, context: Option<ActiveContext>, n: nat, i: nat)
    requires i < n < |batch.blueprints|
    ensures Promoted(PromotionsTo(batch, context, n + 1), i) <==> Promoted(PromotionsTo(batch, context, n), i)
  {
  }

  lemma AddRowKeepsPromoted(table: Table, size: nat, row: Proposal, p: Promotions, p': Promotions)
    requires size <= |table| && RowsPromoted(table, size, p)
    requires forall i: nat | i < |table| - size :: Promoted(p', i) <==> Promoted(p, i)
    requires (row.status == Active <==> Promoted(p', |table| - size)) && (row.status == Active ==> row.promotedAt.Some?)
    ensures RowsPromoted(table + [row], size, p')
  {
  }

  lemma AddKeepsOutcome(start: BatchState, batch: Batch, n: nat, s: BatchState)
    requires n < |batch.blueprints| && BatchOutcome(start, batch, n, s)
    ensures BatchOutcome(start, batch, n + 1, AddNext(s, batch, n))
  {
    var s', row := AddNext(s, batch, n), NewProposal(batch, batch.blueprints[n], s.context);
    var p, p' := PromotionsTo(batch, start.context, n), PromotionsTo(batch, start.context, n + 1);
    NextIsPromotedIff(batch, start.context, n);
    RowOf(batch, n, s.context);
    assert s'.table[..|start.table|] == s.table[..|start.table|];
    forall i: nat | i < n
      ensures Promoted(p', i) <==> Promoted(p, i)
    {
      PromotionsGrow(batch, start.context, n, i);
    }
    AddRowKeepsPromoted(s.table, |start.table|, row, p, p');
  }

  lemma StartOutcome(start: BatchState, batch: Batch)
    requires !start.promoted
    ensures BatchOutcome(start, batch, 0, start)
  {
  }

  /** A batch, of whatever sources, promotes the first blueprint that governance promotes over the
      previous strategy, and a second one only to overtake a mock; never a third. */
  lemma {:induction false} BatchPromotesExactly(start: BatchState, batch: Batch, n: nat, s: BatchState)
    requires n <= |batch.blueprints| && !start.promoted && s == AddBlueprints(start, batch, n)
    ensures BatchOutcome(start, batch, n, s)
  {
    if n == 0 {
      StartOutcome(start, batch);
    } else {
      var before := AddBlueprints(start, batch, n - 1);
      BatchPromotesExactly(start, batch, n - 1, before);
      AddKeepsOutcome(start, batch, n - 1, before);
    }
  }

  /** `i` is the first blueprint that governance promotes over `context`. */
  predicate IsFirst(batch: Batch, context: Option<ActiveContext>, i: nat)
    requires i < |batch.blueprints|
  {
    Promotes(batch, context, i) && forall k | 0 <= k < i :: !Promotes(batch, context, k)
  }

  /** The first blueprint promoted is a mock, and a later one overtakes it. */
  predicate MockOvertaken(batch: Batch, context: Option<ActiveContext>) {
    exists i, j | 0 <= i < j < |batch.blueprints| :: IsFirst(batch, context, i) && Overtakes(batch, i, j)
  }

  lemma {:induction false} FirstIsFirst(batch: Batch, context: Option<ActiveContext>, n: nat, k: nat)
    requires n <= |batch.blueprints|
    requires var p := PromotionsTo(batch, context, n);
             k < if p.Nobody? then n else p.first
    ensures !Promotes(batch, context, k)
  {
    var before := PromotionsTo(batch, context, n - 1);
    if !before.Nobody? || k < n - 1 {
      FirstIsFirst(batch, context, n - 1, k);
    }
  }

  lemma {:induction false} OneIsNotOvertaken(batch: Batch, context: Option<ActiveContext>, n: nat, j: nat)
    requires n <= |batch.blueprints|
    requires var p := PromotionsTo(batch, context, n);
             p.One? && p.first < j < n
    ensures !Overtakes(batch, PromotionsTo(batch, context, n).first, j)
  {
    if j < n - 1 {
      OneIsNotOvertaken(batch, context, n - 1, j);
    }
  }

  lemma FirstOfTwoIsFirst(batch: Batch, context: Option<ActiveContext>, n: nat)
    requires n <= |batch.blueprints| && PromotionsTo(batch, context, n).Two?
    ensures IsFirst(batch, context, PromotionsTo(batch, context, n).first)
  {
    var p := PromotionsTo(batch, context, n);
    forall k: nat | k < p.first
      ensures !Promotes(batch, context, k)
    {
      FirstIsFirst(batch, context, n, k);
    }
  }

  lemma OvertakenGivesTwo(batch: Batch, context: Option<ActiveContext>, n: nat, i: nat, j: nat)
    requires i < j < n <= |batch.blueprints| && IsFirst(batch, context, i) && Overtakes(batch, i, j)
    ensures PromotionsTo(batch, context, n).Two?
  {
    var p := PromotionsTo(batch, context, n);
    if p.Nobody? || i < p.first {
      FirstIsFirst(batch, context, n, i);
    } else if p.One? {
      assert p.first == i;
      OneIsNotOvertaken(batch, context, n, j);
    }
  }

  lemma TwoIffMockOvertaken(batch: Batch, context: Option<ActiveContext>)
    ensures PromotionsTo(batch, context, |batch.blueprints|).Two? <==> MockOvertaken(batch, context)
  {
    var p, n := PromotionsTo(batch, context, |batch.blueprints|), |batch.blueprints|;
    if p.Two? {
      FirstOfTwoIsFirst(batch, context, n);
    }
    if MockOvertaken(batch, context) {
      var i, j :| 0 <= i < j < n && IsFirst(batch, context, i) && Overtakes(batch, i, j);
      OvertakenGivesTwo(batch, context, n, i, j);
    }
  }

  /** For every table with at most one active strategy and every batch: there is at most one after
      the batch if and only if no mock promoted first is overtaken. */
  lemma BatchKeepsOneActiveIff(t: Table, batch: Batch)
    requires AtMostOneActive(t)
    ensures AtMostOneActive(Materialize(t, GetActive(t), batch)) <==> !MockOvertaken(batch, ContextFor(t, GetActive(t)))
  {
    var previous, n := GetActive(t), |batch.blueprints|;
    var start := BatchState(t, ContextFor(t, previous), false);
    BatchPromotesExactly(start, batch, n, AddBlueprints(start, batch, n));
    TwoIffMockOvertaken(batch, start.context);
    UniqueActive(t);
    OutcomeKeepsOneActiveIff(t, previous, batch, AddBlueprints(start, batch, n));
  }

  lemma OutcomeKeepsOneActiveIff(t: Table, previous: Option<nat>, batch: Batch, s: BatchState)
    requires previous.Some? ==> previous.value < |t|
    requires forall i | 0 <= i < |t| :: t[i].status == Active <==> previous == Some(i)
    requires AtMostOneActive(t)
    requires BatchOutcome(BatchState(t, ContextFor(t, previous), false), batch, |batch.blueprints|, s)
    ensures var t' := if s.promoted && previous.Some?
                      then s.table[previous.value := Archive(s.table[previous.value], batch.now)] else s.table;
            AtMostOneActive(t') <==> !PromotionsTo(batch, ContextFor(t, previous), |batch.blueprints|).Two?
  {
    var p, size := PromotionsTo(batch, ContextFor(t, previous), |batch.blueprints|), |t|;
    var t' := if s.promoted && previous.Some?
              then s.table[previous.value := Archive(s.table[previous.value], batch.now)] else s.table;
    forall i | 0 <= i < size
      ensures s.table[i] == t[i]
    {
      assert s.table[..size][i] == t[i];
    }
    forall i | 0 <= i < |t'|
      ensures t'[i].status == Active <==>
                (i < size && p.Nobody? && previous == Some(i)) || (i >= size && Promoted(p, i - size))
      ensures t'[i].status == Active ==> t'[i].promotedAt.Some?
    {
    }
    if p.Two? {
      assert t'[size + p.first].status == Active && t'[size + p.second].status == Active;
    }
  }

  /** All blueprints of a batch come from one agent reply, hence from one kind of source. */
  predicate Uniform(batch: Batch) {
    forall i, j | 0 <= i < |batch.blueprints| && 0 <= j < |batch.blueprints| ::
      batch.blueprints[i].sourceKind == batch.blueprints[j].sourceKind
  }

  lemma MaterializeKeepsInvariant(t: Table, batch: Batch)
    requires AtMostOneActive(t) && Uniform(batch)
    ensures AtMostOneActive(Materialize(t, GetActive(t), batch))
  {
    BatchKeepsOneActiveIff(t, batch);
    assert forall i, j | 0 <= i < j < |batch.blueprints| :: !Overtakes(batch, i, j);
  }

  lemma {:induction false} MaterializeAllKeepsInvariant(t: Table, batches: seq<Batch>)
    requires AtMostOneActive(t) && forall i | 0 <= i < |batches| :: Uniform(batches[i])
    ensures var (t', active) := MaterializeAll(t, GetActive(t), batches);
            AtMostOneActive(t') && active == GetActive(t')
    decreases |batches|
  {
    if batches != [] {
      MaterializeKeepsInvariant(t, batches[0]);
      MaterializeAllKeepsInvariant(Materialize(t, GetActive(t), batches[0]), batches[1..]);
    }
  }

  lemma SettledKeepsInvariant(t: Table, s: SyncInput)
    requires AtMostOneActive(t)
    ensures var (t', active) := Settled(t, GetActive(t), s);
            AtMostOneActive(t') && active == GetActive(t')
  {
    if s.forceRefresh {
      ArchiveRestKeepsInvariant(t, s.now);
    } else if AnyOpen(t) {
      if GetActive(t).Some? {
        HealthKeepsInvariant(t, s.firstDrawdown, MarketProfile(s.market), s.now);
      } else if Recover(t, s.now).Some? {
        RecoverKeepsInvariant(t, s.now);
      } else {
        ArchiveRestKeepsInvariant(t, s.now);
      }
    }
  }

  lemma ArchiveRestKeepsInvariant(t: Table, now: Time)
    requires AtMostOneActive(t)
    ensures var t' := ArchiveWhere(t, if GetActive(t).Some? then NotActiveNorArchived else NotArchived, now);
            AtMostOneActive(t') && GetActive(t') == GetActive(t)
  {
    if GetActive(t).Some? {
      ArchivingKeepsInvariant(t, NotActiveNorArchived, now);
    } else {
      UniqueActive(ArchiveWhere(t, NotArchived, now));
    }
  }

  lemma PrepareKeepsInvariant(t: Table, s: SyncInput)
    requires AtMostOneActive(t)
    ensures var (t', active) := Prepare(t, s);
            AtMostOneActive(t') && active == GetActive(t')
  {
    var active := GetActive(t);
    var symbol := if active.Some? then t[active.value].symbol else s.firstSymbol;
    ArchivingKeepsInvariant(t, OutOfScope(symbol, s.market), s.now);
    SettledKeepsInvariant(Scoped(t, s), s);
  }

  lemma FinishKeepsInvariant(t: Table, s: SyncInput)
    requires AtMostOneActive(t)
    ensures AtMostOneActive(Finish(t, GetActive(t), s))
  {
    var active := GetActive(t);
    if active.Some? {
      PromoteOverMockKeepsInvariant(t, active.value, s.now);
      HealthKeepsInvariant(PromoteOverMock(t, active.value, s.now), s.lastDrawdown, MarketProfile(s.market), s.now);
    } else {
      HealthKeepsInvariant(t, s.lastDrawdown, MarketProfile(s.market), s.now);
    }
  }

  // ==================== Limits of the guarantee ====================

  /** A batch whose blueprints came from different sources can break it: a mock is promoted first,
      the next proposal replaces it in the batch's context but not in the table. */
  lemma MixedBatchLeavesTwoActive(batch: Batch, mock: Blueprint, genuine: Blueprint)
    requires batch.blueprints == [mock, genuine]
    requires mock.sourceKind == Mock && genuine.sourceKind != Mock
    requires mock.finalScore <= genuine.finalScore
    requires forall b | b in batch.blueprints ::
               && b.bottomLinePassed && b.gate.eligible && b.knowledge == []
               && b.finalScore >= MarketProfile(batch.market).promoteThreshold
    requires !batch.macroDegraded
    ensures !AtMostOneActive(Materialize([], None, batch))
  {
    assert mock in batch.blueprints && genuine in batch.blueprints;
    assert IsFirst(batch, None, 0) && Overtakes(batch, 0, 1);
    BatchKeepsOneActiveIff([], batch);
  }

  predicate PromotedLast(t: Table, a: nat)
    requires a < |t|
  {
    forall i | 0 <= i < |t| && i != a && Recoverable(t[i]) :: Greater(PromotedKey(t[a]), PromotedKey(t[i]))
  }

  /** The rows of `t` and `u` look the same to recovery. */
  predicate SameToRecovery(t: Table, u: Table) {
    |u| == |t| && forall i | 0 <= i < |t| ::
      (Recoverable(u[i]) <==> Recoverable(t[i])) && PromotedKey(u[i]) == PromotedKey(t[i])
  }

  lemma RecoverableKeys(t: Table, u: Table, a: nat)
    requires SameToRecovery(t, u) && a < |t| && Recoverable(t[a])
    requires forall i | 0 <= i < |t| && i != a && Recoverable(t[i]) :: PromotedKey(t[a]) != PromotedKey(t[i])
    ensures First(u, Recoverable, PromotedKey) == Some(a) <==> PromotedLast(t, a)
  {
    var k := First(u, Recoverable, PromotedKey);
    if k == Some(a) {
      forall i | 0 <= i < |t| && i != a && Recoverable(t[i])
        ensures Greater(PromotedKey(t[a]), PromotedKey(t[i]))
      {
        assert Recoverable(u[i]) && !Greater(PromotedKey(u[i]), PromotedKey(u[a]));
      }
    }
    assert Recoverable(u[a]);
  }

  /** Recovery from a table without an active strategy. */
  lemma RecoverActivates(u: Table, now: Time)
    requires NoneActive(u) && First(u, Recoverable, PromotedKey).Some?
    ensures Recover(u, now).Some? && GetActive(Recover(u, now).value) == First(u, Recoverable, PromotedKey)
  {
    var k := First(u, Recoverable, PromotedKey).value;
    Activate(u, k, u[k].(status := Active, archivedAt := None, updatedAt := now));
  }

  /** Settling a table without an active strategy. */
  lemma SettledRecoversIff(u: Table, a: nat, s: SyncInput)
    requires NoneActive(u) && GetActive(u) == None
    ensures var after := Settled(u, None, s).0;
            && (GetActive(after) == Some(a) <==>
                  !s.forceRefresh && AnyOpen(u) && First(u, Recoverable, PromotedKey) == Some(a))
            && (GetActive(after) == Some(a) ==> a < |u| && after[a].decision == u[a].decision)
  {
    if !s.forceRefresh && First(u, Recoverable, PromotedKey).Some? {
      RecoverActivates(u, s.now);
    } else {
      assert NoneActive(ArchiveWhere(u, NotArchived, s.now));
    }
  }

  /** A synchronisation that finds no active strategy. */
  lemma PrepareRecoversIff(t: Table, paused: Table, a: nat, s: SyncInput)
    requires SameToRecovery(t, paused) && a < |t| && NoneActive(paused)
    requires forall i | 0 <= i < |t| && i != a && Recoverable(t[i]) :: PromotedKey(t[a]) != PromotedKey(t[i])
    ensures var after := Prepare(paused, s).0;
            && (GetActive(after) == Some(a) <==>
                  && !s.forceRefresh && AnyOpen(Scoped(paused, s))
                  && Recoverable(t[a]) && PromotedLast(t, a))
            && (GetActive(after) == Some(a) ==> a < |after| && after[a].decision == paused[a].decision)
  {
    var u := Scoped(paused, s);
    assert GetActive(paused) == None && NoneActive(u) && GetActive(u) == None;
    assert SameToRecovery(t, u);
    if Recoverable(t[a]) {
      RecoverableKeys(t, u, a);
    }
    SettledRecoversIff(u, a, s);
  }

  /** A health check leaves the table alone exactly when the drawdown is below the pause threshold or
      the latest decision on the active strategy is a pause or a rollback already. */
  lemma HealthTouchesIff(u: Table, a: nat, drawdown: real, g: Profile, now: Time)
    requires GetActive(u) == Some(a)
    ensures Health(u, drawdown, g, now) == u <==>
              u[a].decision == PauseActive || u[a].decision == RollbackToPreviousStable || drawdown < g.drawdownPause
  {
    if Health(u, drawdown, g, now) == u {
      assert Health(u, drawdown, g, now)[a].status == Active;
    }
  }

  lemma HealthPauses(t: Table, a: nat, drawdown: real, g: Profile, now: Time)
    requires AtMostOneActive(t) && GetActive(t) == Some(a)
    requires t[a].decision != PauseActive && t[a].decision != RollbackToPreviousStable
    requires g.drawdownPause <= drawdown
    requires drawdown < g.drawdownRollback || First(t, PreviouslyStable, PromotedKey).None?
    ensures var paused := Health(t, drawdown, g, now);
            && NoneActive(paused) && GetActive(paused) == None && SameToRecovery(t, paused)
            && paused[a].decision == if t[a].decidedAt <= now then PauseActive else t[a].decision
  {
    var paused := Paused(t, a, PauseActive, PausedPendingReview, now);
    PausedLeavesNone(t, a, PauseActive, PausedPendingReview, now);
    assert Health(t, drawdown, g, now) == paused;
    assert forall i | 0 <= i < |t| && i != a :: paused[i] == t[i];
  }

  /** A pause need not last. The next synchronisation brings the paused strategy back exactly when it
      is no refresh, some proposal is still open once those out of scope are archived, the strategy is
      no mock, and it is the one promoted last. Once it is back, a later drawdown at the pause
      threshold touches it exactly when the pause is dated before its latest decision, as the pause
      is that ends the synchronisation promoting it; a pause dated later shields it from every
      drawdown. The drawdown that pauses may be of any size: below the rollback threshold, or beyond
      it without a previous stable strategy. */
  lemma PauseIsUndoneIff(t: Table, a: nat, drawdown: real, g: Profile, now: Time, next: SyncInput,
                         later: real, afterwards: Time)
    requires AtMostOneActive(t) && GetActive(t) == Some(a)
    requires t[a].decision != PauseActive && t[a].decision != RollbackToPreviousStable
    requires g.drawdownPause <= drawdown
    requires drawdown < g.drawdownRollback || First(t, PreviouslyStable, PromotedKey).None?
    requires forall i | 0 <= i < |t| && i != a && Recoverable(t[i]) :: PromotedKey(t[a]) != PromotedKey(t[i])
    ensures var paused := Health(t, drawdown, g, now);
            var after := Prepare(paused, next).0;
            && GetActive(paused) == None
            && (GetActive(after) == Some(a) <==>
                  && !next.forceRefresh && AnyOpen(Scoped(paused, next))
                  && t[a].sourceKind != Mock && PromotedLast(t, a))
            && (GetActive(after) == Some(a) ==>
                  (Health(after, later, g, afterwards) == after <==> t[a].decidedAt <= now || later < g.drawdownPause))
  {
    var paused := Health(t, drawdown, g, now);
    HealthPauses(t, a, drawdown, g, now);
    PrepareRecoversIff(t, paused, a, next);
    var after := Prepare(paused, next).0;
    if GetActive(after) == Some(a) {
      HealthTouchesIff(after, a, later, g, afterwards);
    }
  }

  /** Out of scope of the next synchronisation's first symbol, a lone paused strategy is archived
      before recovery is considered. */
  lemma PauseOutOfScopeStays(t: Table, drawdown: real, g: Profile, now: Time, next: SyncInput)
    requires |t| == 1 && t[0].status == Active && t[0].promotedAt.Some?
    requires t[0].decision != PauseActive && t[0].decision != RollbackToPreviousStable
    requires g.drawdownPause <= drawdown && t[0].symbol != next.firstSymbol
    ensures PromotedLast(t, 0) && GetActive(Prepare(Health(t, drawdown, g, now), next).0) == None
  {
    var paused := Paused(t, 0, PauseActive, PausedPendingReview, now);
    assert AtMostOneActive(t) && GetActive(t) == Some(0);
    assert First(t, PreviouslyStable, PromotedKey).None?;
    PausedLeavesNone(t, 0, PauseActive, PausedPendingReview, now);
    assert GetActive(paused) == None;
    assert OutOfScope(next.firstSymbol, next.market)(paused[0]);
    assert Scoped(paused, next)[0].status == Archived && !AnyOpen(Scoped(paused, next));
  }
}
