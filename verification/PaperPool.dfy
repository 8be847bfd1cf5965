/** Which proposals the paper slots hold (`list_paper_slots` and `_assign_paper_pool_slots` in
    src/openhamster/api/services.py). Slot 0 is the primary, slot k is `candidate-k`. */
module PaperPool {
  import opened Prelude
  import opened Governance
  import opened Ranking
  import opened ProposalTable

  datatype SlotKind = Primary | Challenger

  datatype SlotStatus = Idle | Assigned

  datatype EntryReason = PoolSeed | PrimaryActiveSync | SlotIdle | PrioritySelection

  datatype Slot = Slot(
    kind: SlotKind,
    proposal: Option<nat>,
    status: SlotStatus,
    rank: Option<nat>,
    assignedAt: Option<Time>,
    updatedAt: Time,
    reason: EntryReason)

  type Slots = map<nat, Slot>

  /** The slots the configuration asks for. */
  function SlotIds(count: nat): (ids: set<nat>)
    ensures forall k: nat :: k in ids <==> k < count
  {
    if count == 0 then {} else SlotIds(count - 1) + {count - 1}
  }

  /** `_paper_candidate_eligible` for the rows of `list_candidate_strategies`. */
  predicate Eligible(t: Table, active: Option<nat>, i: nat)
    requires i < |t|
  {
    && (t[i].status == Candidate || t[i].status == Active)
    && t[i].sourceKind != Mock
    && active != Some(i)
    && !t[i].knowledgeBlocked
    && t[i].gateEligible
    && !t[i].promotionBlocked
  }

  function EligibleRows(t: Table, active: Option<nat>): set<nat> {
    set i: nat | i < |t| && Eligible(t, active, i)
  }

  /** `_paper_slot_sort_key`. */
  function SlotKey(t: Table): nat -> Key {
    (i: nat) =>
      if i < |t| then
        Key(if t[i].gateEligible then 1 else 0, if t[i].canReplace then 1 else 0, t[i].finalScore, t[i].createdAt)
      else Key(0, 0, 0, 0)
  }

  function EligibleList(t: Table, active: Option<nat>, n: nat): (ids: seq<nat>)
    requires n <= |t|
    ensures forall i :: i in ids <==> i < n && i in EligibleRows(t, active)
    ensures Distinct(ids)
  {
    if n == 0 then []
    else
      var front := EligibleList(t, active, n - 1);
      assert forall j | 0 <= j < |front| :: front[j] in front;
      if Eligible(t, active, n - 1) then front + [n - 1] else front
  }

  function RankedCandidates(t: Table, active: Option<nat>): seq<nat> {
    SortDescending(SlotKey(t), EligibleList(t, active, |t|))
  }

  // ----- The slots after an assignment -----

  function NewSlot(k: nat, active: Option<nat>, now: Time): Slot {
    if k == 0 then
      Slot(Primary, active, if active.Some? then Assigned else Idle, Some(1),
           if active.Some? then Some(now) else None, now, PoolSeed)
    else Slot(Challenger, None, Idle, None, None, now, PoolSeed)
  }

  function SlotOr(slots: Slots, k: nat, active: Option<nat>, now: Time): Slot {
    if k in slots then slots[k] else NewSlot(k, active, now)
  }

  function PrimarySlot(before: Slot, active: Option<nat>, now: Time): Slot {
    Slot(Primary, active, if active.Some? then Assigned else Idle, Some(1),
         if active.Some? && before.assignedAt.None? then Some(now) else before.assignedAt, now, PrimaryActiveSync)
  }

  function ChallengerSlot(before: Slot, k: nat, proposal: Option<nat>, now: Time): Slot {
    if proposal.None? then
      before.(kind := Challenger, rank := Some(k), updatedAt := now,
              proposal := None, status := Idle, reason := SlotIdle)
    else
      Slot(Challenger, proposal, Assigned, Some(k),
           if before.assignedAt.None? then Some(now) else before.assignedAt, now, PrioritySelection)
  }

  function AssignedSlot(slots: Slots, t: Table, active: Option<nat>, now: Time, k: nat): Slot {
    var before := SlotOr(slots, k, active, now);
    var ranked := RankedCandidates(t, active);
    if k == 0 then PrimarySlot(before, active, now)
    else ChallengerSlot(before, k, if k - 1 < |ranked| then Some(ranked[k - 1]) else None, now)
  }

  /** All slots after an assignment; slots beyond the configured count are left as they are. */
  function AssignedSlots(slots: Slots, t: Table, active: Option<nat>, now: Time, count: nat): Slots {
    map k: nat | k in slots.Keys + SlotIds(count) ::
      if k < count then AssignedSlot(slots, t, active, now, k) else slots[k]
  }

  class Pool {
    var slots: Slots

    constructor ()
      ensures slots == map[]
    {
      slots := map[];
    }

    /** Adds the configured slots that do not exist yet. */
    method ListPaperSlots(active: Option<nat>, now: Time, count: nat)
      modifies this
      ensures slots.Keys == old(slots).Keys + SlotIds(count)
      ensures forall k | k in slots ::
                slots[k] == if k < count then SlotOr(old(slots), k, active, now) else old(slots)[k]
    {
      for k := 0 to count
        invariant slots.Keys == old(slots).Keys + SlotIds(k)
        invariant forall j | j in slots ::
                    slots[j] == if j < k then SlotOr(old(slots), j, active, now) else old(slots)[j]
      {
        if k !in slots {
          slots := slots[k := NewSlot(k, active, now)];
        }
      }
    }

    method AssignPaperPoolSlots(t: Table, active: Option<nat>, now: Time, count: nat)
      requires count >= 1
      modifies this
      ensures slots == AssignedSlots(old(slots), t, active, now, count)
    {
      ghost var before := slots;
      ListPaperSlots(active, now, count);
      assert PartlyAssigned(slots, before, t, active, now, count, 0);
      AssignOne(slots, before, t, active, now, count, 0);
      slots := slots[0 := PrimarySlot(slots[0], active, now)];
      var ranked := SortDescending(SlotKey(t), EligibleList(t, active, |t|));
      for k := 1 to count
        invariant PartlyAssigned(slots, before, t, active, now, count, k)
      {
        AssignOne(slots, before, t, active, now, count, k);
        var proposal := if k - 1 < |ranked| then Some(ranked[k - 1]) else None;
        slots := slots[k := ChallengerSlot(slots[k], k, proposal, now)];
      }
      assert slots == AssignedSlots(before, t, active, now, count);
    }
  }

  /** The first `k` of the configured slots have been assigned. */
  ghost predicate PartlyAssigned(slots: Slots, before: Slots, t: Table, active: Option<nat>, now: Time,
                                 count: nat, k: nat) {
    && slots.Keys == before.Keys + SlotIds(count)
    && forall j: nat | j in slots ::
         slots[j] == if j < k && j < count then AssignedSlot(before, t, active, now, j)
                     else if j < count then SlotOr(before, j, active, now)
                     else before[j]
  }

  lemma AssignOne(slots: Slots, before: Slots, t: Table, active: Option<nat>, now: Time, count: nat, k: nat)
    requires PartlyAssigned(slots, before, t, active, now, count, k) && k < count
    ensures k in slots && slots[k] == SlotOr(before, k, active, now)
    ensures PartlyAssigned(slots[k := AssignedSlot(before, t, active, now, k)],
                           before, t, active, now, count, k + 1)
  {
    assert k in SlotIds(count);
    var slots' := slots[k := AssignedSlot(before, t, active, now, k)];
    assert slots'.Keys == slots.Keys;
  }

  // ----- What an assignment guarantees -----

  /** The proposal in slot `k` after an assignment. */
  function Occupant(t: Table, active: Option<nat>, k: nat): Option<nat> {
    AssignedSlot(map[], t, active, 0, k).proposal
  }

  lemma OccupantOf(slots: Slots, t: Table, active: Option<nat>, now: Time, count: nat, k: nat)
    requires k < count
    ensures AssignedSlots(slots, t, active, now, count)[k].proposal == Occupant(t, active, k)
    ensures k == 0 ==> Occupant(t, active, k) == active
  {
  }

  lemma RankedCandidatesAreSorted(t: Table, active: Option<nat>)
    ensures Sorted(SlotKey(t), RankedCandidates(t, active))
    ensures Elements(RankedCandidates(t, active)) == EligibleRows(t, active)
  {
    SortSorts(SlotKey(t), EligibleList(t, active, |t|));
  }

  /** Candidate slot k holds exactly the eligible proposal of rank k - 1 (rank 0 is the best). */
  lemma SlotHoldsKthBest(t: Table, active: Option<nat>, k: nat, x: nat)
    requires k >= 1
    ensures Occupant(t, active, k) == Some(x)
       <==> x in EligibleRows(t, active) && Rank(EligibleRows(t, active), SlotKey(t), x) == k - 1
  {
    RankedCandidatesAreSorted(t, active);
    PlaceIffRank(SlotKey(t), RankedCandidates(t, active), k - 1, x);
  }

  /** A proposal may run in a candidate slot: it is open, no mock, not the active one, its backtest
      admits it and nothing is listed against it. */
  predicate MayRun(t: Table, active: Option<nat>, i: nat)
    requires i < |t|
  {
    && t[i].status != Rejected && t[i].status != Archived && t[i].sourceKind != Mock && active != Some(i)
    && t[i].gateEligible && !t[i].knowledgeBlocked && !t[i].promotionBlocked
  }

  /** Row `j` gets its slot before row `i`: it can replace the active strategy and `i` cannot, or else
      it scores higher, or else it is younger, or else it stands earlier. */
  predicate GoesFirst(t: Table, j: nat, i: nat)
    requires j < |t| && i < |t|
  {
    if t[j].canReplace != t[i].canReplace then t[j].canReplace
    else if t[j].finalScore != t[i].finalScore then t[j].finalScore > t[i].finalScore
    else if t[j].createdAt != t[i].createdAt then t[j].createdAt > t[i].createdAt
    else j < i
  }

  function RunnersInFront(t: Table, active: Option<nat>, i: nat): set<nat>
    requires i < |t|
  {
    set j: nat | j < |t| && MayRun(t, active, j) && GoesFirst(t, j, i)
  }

  lemma RankCountsRunners(t: Table, active: Option<nat>, i: nat)
    requires i < |t| && MayRun(t, active, i)
    ensures Rank(EligibleRows(t, active), SlotKey(t), i) == |RunnersInFront(t, active, i)|
  {
    forall j: nat | j < |t|
      ensures j in EligibleRows(t, active) <==> MayRun(t, active, j)
      ensures MayRun(t, active, j) ==> (Before(SlotKey(t), j, i) <==> GoesFirst(t, j, i))
    {
    }
    assert (set j | j in EligibleRows(t, active) && Before(SlotKey(t), j, i)) == RunnersInFront(t, active, i);
  }

  /** After an assignment slot k of the configured ones holds row i exactly when the row may run and k - 1
      of the others that may go first. */
  lemma SlotGoesTo(slots: Slots, t: Table, active: Option<nat>, now: Time, count: nat, k: nat, i: nat)
    requires 1 <= k < count
    ensures AssignedSlots(slots, t, active, now, count)[k].proposal == Some(i)
       <==> i < |t| && MayRun(t, active, i) && |RunnersInFront(t, active, i)| == k - 1
  {
    OccupantOf(slots, t, active, now, count, k);
    SlotHoldsKthBest(t, active, k, i);
    if i < |t| && MayRun(t, active, i) {
      RankCountsRunners(t, active, i);
    }
  }

  /** The other fields of a configured slot after an assignment. The time of assignment is that of the
      first proposal the slot ever held. */
  lemma AssignedSlotRecords(slots: Slots, t: Table, active: Option<nat>, now: Time, count: nat, k: nat)
    requires k < count
    ensures var after := AssignedSlots(slots, t, active, now, count);
            var first := if k in slots then slots[k].assignedAt else None;
            && k in after && after[k].updatedAt == now
            && (after[k].status == Assigned <==> after[k].proposal.Some?)
            && after[k].assignedAt == (if first.None? && after[k].proposal.Some? then Some(now) else first)
            && if k == 0 then
                 && after[k].kind == Primary && after[k].rank == Some(1) && after[k].proposal == active
                 && after[k].reason == PrimaryActiveSync
               else
                 && after[k].kind == Challenger && after[k].rank == Some(k)
                 && after[k].reason == if after[k].proposal.Some? then PrioritySelection else SlotIdle
  {
    assert k in SlotIds(count);
  }

  /** Slots beyond the configured count are neither added nor changed. */
  lemma SlotsBeyondStay(slots: Slots, t: Table, active: Option<nat>, now: Time, count: nat, k: nat)
    requires k >= count
    ensures var after := AssignedSlots(slots, t, active, now, count);
            (k in after <==> k in slots) && (k in slots ==> after[k] == slots[k])
  {
  }

  /** A slot added when the pool is listed: only the primary one holds something, the active strategy. */
  lemma SeededSlotRecords(k: nat, active: Option<nat>, now: Time)
    ensures var slot := NewSlot(k, active, now);
            && slot.proposal == (if k == 0 then active else None)
            && (slot.status == Assigned <==> slot.proposal.Some?)
            && slot.assignedAt == (if slot.proposal.Some? then Some(now) else None)
            && (slot.kind == Primary <==> k == 0) && slot.rank == (if k == 0 then Some(1) else None)
            && slot.updatedAt == now && slot.reason == PoolSeed
  {
  }

  /** Among the slots asked for, no proposal sits in two. */
  lemma OccupantsDiffer(t: Table, active: Option<nat>, j: nat, k: nat)
    requires j < k && Occupant(t, active, j).Some?
    ensures Occupant(t, active, j) != Occupant(t, active, k)
  {
    var x := Occupant(t, active, j).value;
    SlotHoldsKthBest(t, active, k, x);
    if j >= 1 {
      SlotHoldsKthBest(t, active, j, x);
    }
  }

  /** No two slots hold the same proposal. */
  predicate OnePlaceEach(slots: Slots) {
    forall j, k | j in slots && k in slots && j < k :: slots[j].proposal.None? || slots[j].proposal != slots[k].proposal
  }

  /** The slots beyond the configured count, which an assignment leaves as they are. */
  function Beyond(slots: Slots, count: nat): Slots {
    map k | k in slots && k >= count :: slots[k]
  }

  /** None of them holds a proposal that the configured slots get. */
  predicate NoneReassigned(kept: Slots, t: Table, active: Option<nat>, count: nat) {
    forall j: nat, k: nat | j < count && k in kept ::
      Occupant(t, active, j).None? || Occupant(t, active, j) != kept[k].proposal
  }

  /** After an assignment no proposal sits in two slots if and only if no slot beyond the count holds
      a proposal that a configured slot gets, and no two slots beyond it hold the same. */
  lemma NoProposalInTwoSlotsIff(slots: Slots, t: Table, active: Option<nat>, now: Time, count: nat)
    ensures OnePlaceEach(AssignedSlots(slots, t, active, now, count))
       <==> NoneReassigned(Beyond(slots, count), t, active, count) && OnePlaceEach(Beyond(slots, count))
  {
    var after, kept := AssignedSlots(slots, t, active, now, count), Beyond(slots, count);
    forall k: nat
      ensures k < count ==> k in after && after[k].proposal == Occupant(t, active, k)
      ensures k >= count ==> (k in after <==> k in kept) && (k in kept ==> after[k] == kept[k])
    {
      if k < count {
        OccupantOf(slots, t, active, now, count, k);
      }
    }
    forall j: nat, k: nat | j < k < count
      ensures Occupant(t, active, j).None? || Occupant(t, active, j) != Occupant(t, active, k)
    {
      if Occupant(t, active, j).Some? {
        OccupantsDiffer(t, active, j, k);
      }
    }
    if OnePlaceEach(after) {
      forall j: nat, k: nat | j < count && k in kept
        ensures Occupant(t, active, j).None? || Occupant(t, active, j) != kept[k].proposal
      {
        assert j in after && k in after && j < k;
      }
      forall j, k | j in kept && k in kept && j < k
        ensures kept[j].proposal.None? || kept[j].proposal != kept[k].proposal
      {
        assert j in after && k in after;
      }
    }
  }

  datatype Assignment = Assignment(t: Table, active: Option<nat>, now: Time, count: nat)

  function AssignedAll(slots: Slots, assignments: seq<Assignment>): Slots {
    if assignments == [] then slots
    else
      var last := assignments[|assignments| - 1];
      AssignedSlots(AssignedAll(slots, assignments[..|assignments| - 1]), last.t, last.active, last.now, last.count)
  }

  /** Over any run of assignments from an empty pool whose count never falls, whatever happens to the
      proposals in between, no proposal ever sits in two slots. */
  lemma {:induction false} GrowingPoolKeepsOnePlace(assignments: seq<Assignment>)
    requires forall i, j | 0 <= i < j < |assignments| :: assignments[i].count <= assignments[j].count
    ensures OnePlaceEach(AssignedAll(map[], assignments))
    ensures assignments != [] ==>
              forall k | k in AssignedAll(map[], assignments) :: k < assignments[|assignments| - 1].count
    ensures assignments == [] ==> AssignedAll(map[], assignments) == map[]
  {
    if assignments != [] {
      var n := |assignments| - 1;
      var last, slots := assignments[n], AssignedAll(map[], assignments[..n]);
      GrowingPoolKeepsOnePlace(assignments[..n]);
      if n > 0 {
        assert assignments[..n][n - 1].count <= last.count;
      }
      assert Beyond(slots, last.count) == map[];
      NoProposalInTwoSlotsIff(slots, last.t, last.active, last.now, last.count);
    }
  }

  /** It fails when the configured count is lowered: the slot that fell away keeps the proposal that
      has become active since, and so does the primary slot. */
  lemma LoweredCountLeavesTwo(t: Table, active: Option<nat>, now: Time, x: nat, later: Table, afterwards: Time)
    requires Occupant(t, active, 1) == Some(x)
    ensures var first := AssignedSlots(map[], t, active, now, 2);
            var second := AssignedSlots(first, later, Some(x), afterwards, 1);
            && 0 in second && 1 in second
            && second[0].proposal == second[1].proposal == Some(x)
  {
    var first := AssignedSlots(map[], t, active, now, 2);
    OccupantOf(map[], t, active, now, 2, 1);
    assert 1 in SlotIds(2) && 0 in SlotIds(1);
    OccupantOf(first, later, Some(x), afterwards, 1, 0);
  }

  /** The occupied candidate slots come first. */
  lemma OccupiedSlotsFormPrefix(t: Table, active: Option<nat>, j: nat, k: nat)
    requires 1 <= j < k && Occupant(t, active, k).Some?
    ensures Occupant(t, active, j).Some?
  {
  }

  /** An eligible proposal left out is sorted behind every proposal in a candidate slot. */
  lemma LeftOutRanksBehind(t: Table, active: Option<nat>, count: nat, x: nat, k: nat)
    requires x in EligibleRows(t, active)
    requires forall j | 1 <= j < count :: Occupant(t, active, j) != Some(x)
    requires 1 <= k < count && Occupant(t, active, k).Some?
    ensures Before(SlotKey(t), Occupant(t, active, k).value, x)
  {
    var y := Occupant(t, active, k).value;
    var r := Rank(EligibleRows(t, active), SlotKey(t), x);
    SlotHoldsKthBest(t, active, k, y);
    SlotHoldsKthBest(t, active, r + 1, x);
    assert r + 1 >= count;
    RankOrders(EligibleRows(t, active), SlotKey(t), y, x);
  }
}
