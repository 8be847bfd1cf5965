/** Retention of candidates (`prune_strategy_proposals` in src/openhamster/api/services.py). */
module ProposalPruning {
  import opened Prelude
  import opened Governance
  import opened Ranking
  import opened ProposalTable

  datatype Retention = Retention(rejectedDays: int, candidateMaxAgeDays: int, candidateLimit: int)

  /** The symbol and market whose candidates are pruned, and when. */
  datatype Scope = Scope(symbol: string, market: Market, now: Time, retention: Retention)

  function MaxAge(s: Scope): int {
    Max(1, s.retention.candidateMaxAgeDays)
  }

  function Limit(s: Scope): (n: nat)
    ensures n >= 1
  {
    Max(1, s.retention.candidateLimit)
  }

  predicate Protected(p: Proposal) {
    p.phase == CandidateCooldown || p.phase == PausedPendingReview
  }

  predicate OldRejected(p: Proposal, s: Scope) {
    p.status == Rejected && p.createdAt < s.now - Max(0, s.retention.rejectedDays) * SECONDS_PER_DAY
  }

  predicate InPool(p: Proposal, s: Scope) {
    p.status == Candidate && p.symbol == s.symbol && p.market == s.market
  }

  predicate Aged(p: Proposal, s: Scope) {
    Max(0, Day(s.now) - Day(p.createdAt)) > MaxAge(s) && !Protected(p)
  }

  function AgedInPool(s: Scope): Proposal -> bool {
    (p: Proposal) => InPool(p, s) && Aged(p, s)
  }

  function RowKey(t: Table): nat -> Key {
    (i: nat) => if i < |t| then ScoreKey(t[i]) else Key(0, 0, 0, 0)
  }

  /** The candidates of the scope that are young enough or protected. */
  function Survivors(t: Table, s: Scope): set<nat> {
    set i: nat | i < |t| && InPool(t[i], s) && !Aged(t[i], s)
  }

  predicate Overflows(t: Table, s: Scope, i: nat)
    requires i < |t|
  {
    i in Survivors(t, s) && Rank(Survivors(t, s), RowKey(t), i) >= Limit(s) && !Protected(t[i])
  }

  predicate IsPruned(t: Table, s: Scope, i: nat)
    requires i < |t|
  {
    OldRejected(t[i], s) || (InPool(t[i], s) && Aged(t[i], s)) || Overflows(t, s, i)
  }

  /** The table after pruning. */
  function Prune(t: Table, s: Scope): (t': Table)
    ensures |t'| == |t|
    ensures forall i | 0 <= i < |t| :: t'[i] == if IsPruned(t, s, i) then Archive(t[i], s.now) else t[i]
  {
    seq(|t|, i requires 0 <= i < |t| => if IsPruned(t, s, i) then Archive(t[i], s.now) else t[i])
  }

  // ----- Which rows are pruned -----

  /** A candidate of the scope that is young enough, or in one of the two phases that wait for a
      decision. */
  predicate Contends(p: Proposal, s: Scope) {
    && p.status == Candidate && p.symbol == s.symbol && p.market == s.market
    && (|| p.phase == CandidateCooldown || p.phase == PausedPendingReview
        || Day(s.now) - Day(p.createdAt) <= Max(1, s.retention.candidateMaxAgeDays))
  }

  /** Row `j` scores higher than row `i`, on a tie is younger, on another stands earlier. */
  predicate InFront(t: Table, j: nat, i: nat)
    requires j < |t| && i < |t|
  {
    || t[j].finalScore > t[i].finalScore
    || (t[j].finalScore == t[i].finalScore && t[j].createdAt > t[i].createdAt)
    || (t[j].finalScore == t[i].finalScore && t[j].createdAt == t[i].createdAt && j < i)
  }

  function ContendersInFront(t: Table, s: Scope, i: nat): set<nat>
    requires i < |t|
  {
    set j: nat | j < |t| && Contends(t[j], s) && InFront(t, j, i)
  }

  lemma RankCountsContenders(t: Table, s: Scope, i: nat)
    requires i < |t|
    ensures Rank(Survivors(t, s), RowKey(t), i) == |ContendersInFront(t, s, i)|
  {
    forall j: nat | j < |t|
      ensures j in Survivors(t, s) <==> Contends(t[j], s)
      ensures Before(RowKey(t), j, i) <==> InFront(t, j, i)
    {
    }
    assert (set j | j in Survivors(t, s) && Before(RowKey(t), j, i)) == ContendersInFront(t, s, i);
  }

  /** Pruning archives exactly: every rejected row older than the retention; and of the candidates of the
      scope in neither of those phases, those too old and those with the limit of contenders in front. */
  lemma PrunesExactly(t: Table, s: Scope, i: nat)
    requires i < |t|
    ensures var p, r := t[i], s.retention;
            Prune(t, s)[i] ==
              if (p.status == Rejected && p.createdAt < s.now - Max(0, r.rejectedDays) * 86_400)
                 || (&& p.status == Candidate && p.symbol == s.symbol && p.market == s.market
                     && p.phase != CandidateCooldown && p.phase != PausedPendingReview
                     && (|| Day(s.now) - Day(p.createdAt) > Max(1, r.candidateMaxAgeDays)
                         || |ContendersInFront(t, s, i)| >= Max(1, r.candidateLimit)))
              then p.(status := Archived, archivedAt := Some(s.now), updatedAt := s.now) else p
  {
    RankCountsContenders(t, s, i);
  }

  // ----- What pruning keeps -----

  /** A candidate in a protected phase is never archived, nor is any active strategy. */
  lemma PruneKeepsProtected(t: Table, s: Scope, i: nat)
    requires i < |t| && ((t[i].status == Candidate && Protected(t[i])) || t[i].status == Active)
    ensures Prune(t, s)[i] == t[i]
  {
  }

  lemma PruneKeepsInvariant(t: Table, s: Scope)
    requires AtMostOneActive(t)
    ensures AtMostOneActive(Prune(t, s))
    ensures GetActive(Prune(t, s)) == GetActive(t)
  {
    var t' := Prune(t, s);
    assert forall i | 0 <= i < |t| :: t'[i].status == Active <==> t[i].status == Active;
    UniqueActive(t);
    UniqueActive(t');
  }

  /** The survivors in row order. */
  function SurvivorList(t: Table, s: Scope, n: nat): (ids: seq<nat>)
    requires n <= |t|
    ensures forall i :: i in ids <==> i < n && i in Survivors(t, s)
    ensures Distinct(ids)
  {
    if n == 0 then []
    else
      var front := SurvivorList(t, s, n - 1);
      if n - 1 in Survivors(t, s) then front + [n - 1] else front
  }

  /** The survivors as `sorted` orders them. */
  function Ranked(t: Table, s: Scope): seq<nat> {
    SortDescending(RowKey(t), SurvivorList(t, s, |t|))
  }

  lemma RankedIsSorted(t: Table, s: Scope)
    ensures Sorted(RowKey(t), Ranked(t, s)) && Elements(Ranked(t, s)) == Survivors(t, s)
  {
    SortSorts(RowKey(t), SurvivorList(t, s, |t|));
  }

  /** Archiving old rejected rows first does not change who survives. */
  lemma {:induction false} RejectedDoNotSurvive(t: Table, t': Table, s: Scope, n: nat)
    requires t' == ArchiveWhere(t, (p: Proposal) => OldRejected(p, s), s.now) && n <= |t|
    ensures SurvivorList(t', s, n) == SurvivorList(t, s, n)
  {
    if n > 0 {
      RejectedDoNotSurvive(t, t', s, n - 1);
    }
  }

  /** `x` stands in `list[start..end]`. */
  predicate InTail(list: seq<nat>, start: nat, end: nat, x: nat)
    requires end <= |list|
  {
    exists j :: start <= j < end && list[j] == x
  }

  /** The rows behind the limit in the sorted list are those that overflow, unless protected. */
  lemma OverflowIsTail(t: Table, s: Scope, i: nat)
    requires i < |t|
    ensures Overflows(t, s, i)
       <==> !Protected(t[i]) && InTail(Ranked(t, s), Limit(s), |Ranked(t, s)|, i)
  {
    RankedIsSorted(t, s);
    var ranked := Ranked(t, s);
    forall j | 0 <= j < |ranked| ensures Rank(Survivors(t, s), RowKey(t), ranked[j]) == j {
      PositionIsRank(RowKey(t), ranked, j);
    }
    if Overflows(t, s, i) {
      assert i in Elements(ranked);
      var j :| 0 <= j < |ranked| && ranked[j] == i;
      assert Limit(s) <= j;
    }
    if InTail(ranked, Limit(s), |ranked|, i) {
      var j :| Limit(s) <= j < |ranked| && ranked[j] == i;
      assert i in Elements(ranked);
    }
  }

  /** The candidates of the scope that are left and not protected. */
  function UnprotectedLeft(t: Table, s: Scope): set<nat> {
    set i: nat | i < |t| && InPool(t[i], s) && !Protected(t[i])
  }

  /** At most the retention limit of unprotected candidates is left. */
  lemma PruneRespectsLimit(t: Table, s: Scope)
    ensures |UnprotectedLeft(Prune(t, s), s)| <= Limit(s)
  {
    RankedIsSorted(t, s);
    TopRows(RowKey(t), Ranked(t, s), Limit(s));
    var left := UnprotectedLeft(Prune(t, s), s);
    var top := set x | x in Ranked(t, s) && Rank(Survivors(t, s), RowKey(t), x) < Limit(s);
    forall i | i in left ensures i in top {
      assert i in Survivors(t, s);
      assert i in Elements(Ranked(t, s));
    }
    SubsetSize(left, top);
  }

  /** A candidate archived for overflow is sorted behind each of the top candidates, all kept. */
  lemma OverflowRanksBelowKept(t: Table, s: Scope, x: nat, y: nat)
    requires x < |t| && Overflows(t, s, x)
    requires y in Survivors(t, s) && Rank(Survivors(t, s), RowKey(t), y) < Limit(s)
    ensures Prune(t, s)[y] == t[y] && Before(RowKey(t), y, x)
  {
    RankOrders(Survivors(t, s), RowKey(t), y, x);
  }

  /** Pruning again at the same time archives nothing. */
  lemma PruneIsIdempotent(t: Table, s: Scope)
    ensures Prune(Prune(t, s), s) == Prune(t, s)
  {
    var t' := Prune(t, s);
    assert Survivors(t', s) <= Survivors(t, s);
    forall i: nat | i < |t'| ensures !IsPruned(t', s, i) {
      if i in Survivors(t', s) && !Protected(t'[i]) {
        SameKeys(t, t', Survivors(t', s), i);
        RankShrinks(Survivors(t', s), Survivors(t, s), RowKey(t), i);
      }
    }
  }

  lemma SameKeys(t: Table, t': Table, ids: set<nat>, x: nat)
    requires |t| == |t'| && forall i | 0 <= i < |t| :: ScoreKey(t[i]) == ScoreKey(t'[i])
    ensures Rank(ids, RowKey(t'), x) == Rank(ids, RowKey(t), x)
  {
    assert forall i: nat :: RowKey(t)(i) == RowKey(t')(i);
    assert (set y | y in ids && Before(RowKey(t'), y, x)) == (set y | y in ids && Before(RowKey(t), y, x));
  }
}
