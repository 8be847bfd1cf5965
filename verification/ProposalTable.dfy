/** The table of strategy proposals, and the queries made on it
    (src/openhamster/api/services.py). Rows are never deleted; a row's id is its position. */
module ProposalTable {
  import opened Prelude
  import opened Governance
  import opened Ranking

  datatype Proposal = Proposal(
    symbol: string,
    market: Market,
    sourceKind: SourceKind,
    providerReady: bool,
    finalScore: int,
    status: Status,
    createdAt: Time,
    updatedAt: Time,
    promotedAt: Option<Time>,
    archivedAt: Option<Time>,
    // the latest decision
    decision: Action,
    decidedAt: Time,
    phase: Phase,
    // what the paper pool reads from the evidence
    gateEligible: bool,
    canReplace: bool,
    knowledgeBlocked: bool,
    promotionBlocked: bool)

  type Table = seq<Proposal>

  /** Key of `ORDER BY promoted_at DESC, created_at DESC`; SQLite sorts NULL lowest. */
  function PromotedKey(p: Proposal): Key {
    if p.promotedAt.None? then Key(0, 0, p.createdAt, 0) else Key(1, p.promotedAt.value, p.createdAt, 0)
  }

  /** Key of `ORDER BY final_score DESC, created_at DESC`. */
  function ScoreKey(p: Proposal): Key {
    Key(p.finalScore, p.createdAt, 0, 0)
  }

  /** The first row of a query: the row with the greatest key among those that qualify. The
      database leaves ties open; the earliest row is taken. */
  function First(t: Table, qualifies: Proposal -> bool, key: Proposal -> Key): (k: Option<nat>)
    ensures k.Some? ==> k.value < |t| && qualifies(t[k.value])
    ensures k.Some? ==> forall i | 0 <= i < |t| && qualifies(t[i]) :: !Greater(key(t[i]), key(t[k.value]))
    ensures k.None? ==> forall i | 0 <= i < |t| :: !qualifies(t[i])
  {
    if t == [] then None
    else
      var front, last := t[..|t| - 1], t[|t| - 1];
      var k := First(front, qualifies, key);
      assert forall i | 0 <= i < |front| :: t[i] == front[i];
      if qualifies(last) && (k.None? || Greater(key(last), key(t[k.value]))) then Some(|t| - 1) else k
  }

  predicate IsActive(p: Proposal) {
    p.status == Active
  }

  function GetActive(t: Table): (k: Option<nat>)
    ensures k.Some? ==> k.value < |t| && t[k.value].status == Active
    ensures k.None? ==> forall i | 0 <= i < |t| :: t[i].status != Active
  {
    First(t, IsActive, PromotedKey)
  }

  /** The invariant of the table: at most one active strategy, and it has been promoted. */
  ghost predicate AtMostOneActive(t: Table) {
    && (forall i, j | 0 <= i < |t| && 0 <= j < |t| :: t[i].status == Active && t[j].status == Active ==> i == j)
    && (forall i | 0 <= i < |t| :: t[i].status == Active ==> t[i].promotedAt.Some?)
  }

  predicate NoneActive(t: Table) {
    forall i | 0 <= i < |t| :: t[i].status != Active
  }

  function Archive(p: Proposal, now: Time): Proposal {
    p.(status := Archived, archivedAt := Some(now), updatedAt := now)
  }

  /** Archives every row that qualifies. */
  function ArchiveWhere(t: Table, qualifies: Proposal -> bool, now: Time): (t': Table)
    ensures |t'| == |t|
    ensures forall i | 0 <= i < |t| :: t'[i] == if qualifies(t[i]) then Archive(t[i], now) else t[i]
  {
    seq(|t|, i requires 0 <= i < |t| => if qualifies(t[i]) then Archive(t[i], now) else t[i])
  }

  /** The latest decision is the one with the latest time, the later recorded one on a tie. */
  function RecordDecision(p: Proposal, action: Action, phase: Phase, at: Time): Proposal {
    if at >= p.decidedAt then p.(decision := action, phase := phase, decidedAt := at) else p
  }

  lemma ArchivingKeepsInvariant(t: Table, qualifies: Proposal -> bool, now: Time)
    requires AtMostOneActive(t)
    ensures AtMostOneActive(ArchiveWhere(t, qualifies, now))
    ensures (forall p: Proposal | p.status == Active :: !qualifies(p)) ==>
              GetActive(ArchiveWhere(t, qualifies, now)) == GetActive(t)
  {
  }

  /** Under the invariant the query finds the one active row. */
  lemma UniqueActive(t: Table)
    requires AtMostOneActive(t)
    ensures forall i | 0 <= i < |t| :: t[i].status == Active <==> GetActive(t) == Some(i)
  {
  }
}
