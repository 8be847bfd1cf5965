/** The governance decision on one proposal (src/openhamster/api/services.py).

    Scores are rounded to one decimal in the source; they are integers in tenths here. */
module Governance {
  import opened Prelude

  datatype Market = HK | CN | OtherMarket

  datatype SourceKind = Mock | Minimax | OtherKind(name: string)

  datatype Status = Candidate | Active | Rejected | Archived

  datatype Action = Reject | KeepCandidate | PromoteToPaper | PauseActive | RollbackToPreviousStable

  datatype Phase = PromotionReady | CandidateCooldown | CandidateWatch | RejectedPhase
                 | PausedPendingReview | RolledBack

  datatype Profile = Profile(
    promoteThreshold: int,
    keepThreshold: int,
    challengerMinDelta: int,
    cooldownDays: int,
    drawdownPause: real,
    drawdownRollback: real)

  /** The market profiles; an unknown market gets the Hong Kong one. */
  function MarketProfile(m: Market): (g: Profile)
    ensures 4 <= g.cooldownDays <= 5 && g.keepThreshold + 70 == g.promoteThreshold
    ensures 0.10 <= g.drawdownPause == g.drawdownRollback - 0.03
    ensures m != CN ==> g.promoteThreshold == 760 && g.challengerMinDelta == 25 && g.cooldownDays == 4
    ensures m == CN ==> g.promoteThreshold == 750 && g.challengerMinDelta == 30 && g.cooldownDays == 5
    ensures g.drawdownPause == if m == CN then 0.12 else 0.10
  {
    if m == CN then Profile(750, 680, 30, 5, 0.12, 0.15) else Profile(760, 690, 25, 4, 0.10, 0.13)
  }

  datatype Policy = Policy(requireBacktest: bool, blockOnMacroDegrade: bool)

  datatype Gate = Gate(available: bool, eligible: bool, blockedReasons: seq<string>, hardFails: bool)

  /** The reasons a knowledge assessment can give. */
  datatype KnowledgeReason =
    | FamilyMismatch | FailureModeRisk | ParamOutlier | LowNovelty | RuleStackOverfit | CapacityUnclear

  datatype Reason =
    | BottomLineFailed | LlmMockFallback | BelowKeepThreshold | BelowPromoteThreshold
    | DeltaBelowThreshold | CooldownActive | MacroProviderDegraded | BacktestMissing
    | Backtest(text: string) | Knowledge(reason: KnowledgeReason)

  datatype ActiveContext = ActiveContext(finalScore: int, sourceKind: SourceKind, promotedAt: Option<Time>)

  datatype Review = Review(
    finalScore: int,
    bottomLinePassed: bool,
    active: Option<ActiveContext>,
    macroDegraded: bool,
    now: Time,
    sourceKind: SourceKind,
    gate: Option<Gate>,
    knowledge: seq<KnowledgeReason>)

  function CooldownRemainingDays(promotedAt: Option<Time>, now: Time, cooldownDays: int): (days: int)
    ensures days >= 0
  {
    if promotedAt.None? then 0
    else Max(0, cooldownDays - Max(0, Day(now) - Day(promotedAt.value)))
  }

  function Cooldown(r: Review, g: Profile): int {
    CooldownRemainingDays(if r.active.Some? then r.active.value.promotedAt else None, r.now, g.cooldownDays)
  }

  predicate ReplacingMockActive(r: Review, g: Profile) {
    && r.active.Some?
    && r.active.value.sourceKind == Mock
    && r.sourceKind != Mock
    && r.finalScore >= r.active.value.finalScore
    && r.finalScore >= g.promoteThreshold
  }

  predicate CanChallengeActive(r: Review, g: Profile) {
    || r.active.None?
    || ReplacingMockActive(r, g)
    || (r.finalScore - r.active.value.finalScore >= g.challengerMinDelta && Cooldown(r, g) == 0)
  }

  predicate BacktestCandidateOk(gate: Option<Gate>) {
    gate.Some? && gate.value.available && !gate.value.hardFails
  }

  function KnowledgeReasons(ks: seq<KnowledgeReason>): (rs: seq<Reason>)
    ensures forall k :: Knowledge(k) in rs <==> k in ks
    ensures forall x | x in rs :: x.Knowledge?
  {
    if ks == [] then []
    else
      var front, last := ks[..|ks| - 1], ks[|ks| - 1];
      assert ks == front + [last];
      var rs := KnowledgeReasons(front);
      if Knowledge(last) in rs then rs else rs + [Knowledge(last)]
  }

  function AddIf(rs: seq<Reason>, b: bool, x: Reason): (out: seq<Reason>)
    ensures forall y :: y in out <==> y in rs || (b && y == x)
    ensures out == [] <==> rs == [] && !b
  {
    if b then rs + [x] else rs
  }

  function Texts(ts: seq<string>): (rs: seq<Reason>)
    ensures |rs| == |ts| && forall x | x in rs :: x.Backtest?
  {
    if ts == [] then [] else [Backtest(ts[0])] + Texts(ts[1..])
  }

  function BacktestReasons(gate: Option<Gate>): (rs: seq<Reason>)
    ensures rs == [] <==> gate.Some? && gate.value.eligible
    ensures forall x | x in rs :: x.Backtest? || x == BacktestMissing
  {
    if gate.None? then [BacktestMissing]
    else if gate.value.eligible then []
    else if gate.value.blockedReasons == [] then [Backtest("backtest_not_passed")]
    else Texts(gate.value.blockedReasons)
  }

  /** The reasons that come from scores, cooldown and macro status. */
  function StandingReasons(r: Review, g: Profile, p: Policy): seq<Reason> {
    var replacing := ReplacingMockActive(r, g);
    var a := AddIf([], r.sourceKind == Mock, LlmMockFallback);
    var b := AddIf(a, r.finalScore < g.promoteThreshold, BelowPromoteThreshold);
    var c := AddIf(b, r.active.Some? && r.finalScore - r.active.value.finalScore < g.challengerMinDelta
                      && !replacing, DeltaBelowThreshold);
    var d := AddIf(c, Cooldown(r, g) > 0 && !replacing, CooldownActive);
    AddIf(d, p.blockOnMacroDegrade && r.macroDegraded, MacroProviderDegraded)
  }

  function PromotionBlockedReasons(r: Review, g: Profile, p: Policy): seq<Reason> {
    StandingReasons(r, g, p)
    + (if p.requireBacktest then BacktestReasons(r.gate) else [])
    + KnowledgeReasons(r.knowledge)
  }

  function CandidateBlockedReasons(r: Review, g: Profile): seq<Reason> {
    var a := AddIf([], !r.bottomLinePassed && !BacktestCandidateOk(r.gate), BottomLineFailed);
    var b := AddIf(a, r.sourceKind == Mock, LlmMockFallback);
    AddIf(b, r.finalScore < g.keepThreshold, BelowKeepThreshold) + KnowledgeReasons(r.knowledge)
  }

  predicate PromoteAllowed(r: Review, g: Profile, p: Policy) {
    && r.bottomLinePassed
    && r.finalScore >= g.promoteThreshold
    && CanChallengeActive(r, g)
    && (!p.requireBacktest || (r.gate.Some? && r.gate.value.eligible))
    && !(p.blockOnMacroDegrade && r.macroDegraded)
    && forall x | x in PromotionBlockedReasons(r, g, p) :: !x.Knowledge?
  }

  /** Knowledge reasons that do not keep a proposal out of the candidate pool. */
  predicate Soft(k: KnowledgeReason) {
    k == LowNovelty || k == CapacityUnclear
  }

  predicate CandidateAllowed(r: Review, g: Profile) {
    && (r.bottomLinePassed || BacktestCandidateOk(r.gate))
    && r.finalScore >= g.keepThreshold
    && r.sourceKind != Mock
    && forall x | x in CandidateBlockedReasons(r, g) :: x.Knowledge? ==> Soft(x.reason)
  }

  function Decide(r: Review, g: Profile, p: Policy): (d: (Status, Action)) {
    if PromoteAllowed(r, g, p) then (Active, PromoteToPaper)
    else if CandidateAllowed(r, g) then (Candidate, KeepCandidate)
    else (Rejected, Reject)
  }

  function LifecyclePhase(r: Review, g: Profile, action: Action): Phase {
    match action
    case KeepCandidate => if Cooldown(r, g) > 0 then CandidateCooldown else CandidateWatch
    case Reject => RejectedPhase
    case _ => PromotionReady
  }

  // ----- Properties -----

  lemma StandingReasonsClear(r: Review, g: Profile, p: Policy)
    ensures (forall x | x in StandingReasons(r, g, p) :: x == LlmMockFallback)
       <==> && r.finalScore >= g.promoteThreshold
            && CanChallengeActive(r, g)
            && !(p.blockOnMacroDegrade && r.macroDegraded)
  {
    var rs := StandingReasons(r, g, p);
    assert r.finalScore < g.promoteThreshold ==> BelowPromoteThreshold in rs;
    assert p.blockOnMacroDegrade && r.macroDegraded ==> MacroProviderDegraded in rs;
    assert !CanChallengeActive(r, g) ==> DeltaBelowThreshold in rs || CooldownActive in rs;
  }

  lemma UnblockedIff(r: Review, g: Profile, p: Policy)
    ensures (forall x | x in PromotionBlockedReasons(r, g, p) :: x == LlmMockFallback)
       <==> && (forall x | x in StandingReasons(r, g, p) :: x == LlmMockFallback)
            && (!p.requireBacktest || (r.gate.Some? && r.gate.value.eligible))
            && r.knowledge == []
  {
    var standing, knowledge := StandingReasons(r, g, p), KnowledgeReasons(r.knowledge);
    var backtest := if p.requireBacktest then BacktestReasons(r.gate) else [];
    assert forall x :: x in PromotionBlockedReasons(r, g, p) <==> x in standing || x in backtest || x in knowledge;
    assert forall x: Reason | x in backtest || x in knowledge :: x != LlmMockFallback;
    assert backtest != [] ==> backtest[0] in backtest;
    assert r.knowledge != [] ==> r.knowledge[0] in r.knowledge && Knowledge(r.knowledge[0]) in knowledge;
  }

  /** A proposal is promoted exactly when its bottom line passed and nothing blocks its promotion
      but, possibly, being a mock: that reason is listed and never consulted. */
  lemma PromotesIffUnblocked(r: Review, g: Profile, p: Policy)
    ensures Decide(r, g, p).1 == PromoteToPaper
       <==> r.bottomLinePassed && forall x | x in PromotionBlockedReasons(r, g, p) :: x == LlmMockFallback
  {
    StandingReasonsClear(r, g, p);
    UnblockedIff(r, g, p);
    assert r.knowledge != [] ==> Knowledge(r.knowledge[0]) in PromotionBlockedReasons(r, g, p) by {
      if r.knowledge != [] {
        KnowledgeReasonsListed(r, g, p, r.knowledge[0]);
      }
    }
  }

  /** ... so for a proposal that is not a mock, exactly when the list is empty. */
  lemma RealProposalPromotesIffUnblocked(r: Review, g: Profile, p: Policy)
    requires r.sourceKind != Mock && r.bottomLinePassed
    ensures Decide(r, g, p).1 == PromoteToPaper <==> PromotionBlockedReasons(r, g, p) == []
  {
  }

  /** A proposal may stay a candidate exactly when its candidate reasons are at most the two soft
      knowledge reasons. */
  lemma CandidateIffSoftlyBlocked(r: Review, g: Profile)
    ensures CandidateAllowed(r, g)
       <==> forall x | x in CandidateBlockedReasons(r, g) :: x.Knowledge? && Soft(x.reason)
  {
    var rs := CandidateBlockedReasons(r, g);
    assert BottomLineFailed in rs <==> !r.bottomLinePassed && !BacktestCandidateOk(r.gate);
    assert LlmMockFallback in rs <==> r.sourceKind == Mock;
    assert BelowKeepThreshold in rs <==> r.finalScore < g.keepThreshold;
  }

  function Order(a: Action): int {
    match a
    case Reject => 0
    case KeepCandidate => 1
    case _ => 2
  }

  /** Raising the score, with all else fixed, never moves the action down. */
  lemma ScoreIsMonotone(r: Review, higher: int, g: Profile, p: Policy)
    requires r.finalScore <= higher
    ensures Order(Decide(r, g, p).1) <= Order(Decide(r.(finalScore := higher), g, p).1)
  {
  }

  lemma KnowledgeReasonsListed(r: Review, g: Profile, p: Policy, k: KnowledgeReason)
    ensures Knowledge(k) in PromotionBlockedReasons(r, g, p) <==> k in r.knowledge
    ensures Knowledge(k) in CandidateBlockedReasons(r, g) <==> k in r.knowledge
  {
  }

  /** The cooldown starts at its full length and loses a day with every calendar day that passes,
      down to zero. */
  lemma CooldownCountsDown(promoted: Time, now: Time, later: Time, cooldownDays: nat)
    requires promoted <= now <= later
    ensures CooldownRemainingDays(Some(promoted), promoted, cooldownDays) == cooldownDays
    ensures CooldownRemainingDays(Some(promoted), later, cooldownDays)
         == Max(0, CooldownRemainingDays(Some(promoted), now, cooldownDays) - (Day(later) - Day(now)))
  {
    assert Day(promoted) <= Day(now) <= Day(later);
  }

  /** What a proposal must pass whatever strategy is active. */
  predicate PassesGates(r: Review, g: Profile, p: Policy) {
    && r.bottomLinePassed
    && r.finalScore >= g.promoteThreshold
    && (!p.requireBacktest || (r.gate.Some? && r.gate.value.eligible))
    && !(p.blockOnMacroDegrade && r.macroDegraded)
    && r.knowledge == []
  }

  /** Right after a promotion a further proposal is promoted exactly when it passes its gates and
      replaces a mock, itself not one, that it scores no lower than. */
  lemma SecondPromotionIff(r: Review, g: Profile, p: Policy)
    requires r.active.Some? && r.active.value.promotedAt == Some(r.now) && g.cooldownDays >= 1
    ensures Decide(r, g, p).0 == Active <==>
              && PassesGates(r, g, p)
              && r.active.value.sourceKind == Mock && r.sourceKind != Mock
              && r.finalScore >= r.active.value.finalScore
  {
    assert forall k | k in r.knowledge :: Knowledge(k) in PromotionBlockedReasons(r, g, p) by {
      forall k | k in r.knowledge
        ensures Knowledge(k) in PromotionBlockedReasons(r, g, p)
      {
        KnowledgeReasonsListed(r, g, p, k);
      }
    }
    assert r.knowledge != [] ==> r.knowledge[0] in r.knowledge;
  }

  // ----- The decision, condition by condition -----

  /** No promotion lies less than `days` calendar days back. */
  predicate CooldownOver(promotedAt: Option<Time>, now: Time, days: int) {
    promotedAt.None? || Day(now) - Day(promotedAt.value) >= days
  }

  /** The proposal may take the place of the active strategy: there is none, it beats it by the least
      margin after the cooldown, or it is no mock and scores no lower than an active mock. */
  predicate MayReplace(r: Review, g: Profile) {
    match r.active
    case None => true
    case Some(active) =>
      || (&& r.finalScore >= active.finalScore + g.challengerMinDelta
          && CooldownOver(active.promotedAt, r.now, g.cooldownDays))
      || (active.sourceKind == Mock && r.sourceKind != Mock && r.finalScore >= active.finalScore)
  }

  /** A proposal becomes active exactly when it passes its gates and may replace the active strategy. */
  lemma PromotedIff(r: Review, g: Profile, p: Policy)
    requires g.cooldownDays >= 1
    ensures Decide(r, g, p).0 == Active <==> PassesGates(r, g, p) && MayReplace(r, g)
    ensures Decide(r, g, p).0 == Active <==> Decide(r, g, p).1 == PromoteToPaper
  {
    assert forall k | k in r.knowledge :: Knowledge(k) in PromotionBlockedReasons(r, g, p) by {
      forall k | k in r.knowledge
        ensures Knowledge(k) in PromotionBlockedReasons(r, g, p)
      {
        KnowledgeReasonsListed(r, g, p, k);
      }
    }
    assert r.knowledge != [] ==> r.knowledge[0] in r.knowledge;
  }

  /** Nothing is listed against a promotion exactly when the proposal is no mock and, its bottom line
      apart, would be promoted. */
  lemma NothingListedIff(r: Review, g: Profile, p: Policy)
    requires g.cooldownDays >= 1
    ensures PromotionBlockedReasons(r, g, p) == [] <==>
              r.sourceKind != Mock && PassesGates(r.(bottomLinePassed := true), g, p) && MayReplace(r, g)
  {
    StandingReasonsClear(r, g, p);
    UnblockedIff(r, g, p);
    var rs, standing := PromotionBlockedReasons(r, g, p), StandingReasons(r, g, p);
    assert r.sourceKind == Mock ==> LlmMockFallback in standing;
    if r.sourceKind != Mock {
      assert LlmMockFallback !in standing && LlmMockFallback !in rs;
      assert rs != [] ==> rs[0] in rs;
    }
  }

  /** The backtest is there and failed no hard gate. */
  predicate SoftBacktest(gate: Option<Gate>) {
    gate.Some? && gate.value.available && !gate.value.hardFails
  }

  /** A proposal that is not promoted stays a candidate exactly when its bottom line passed or its
      backtest failed softly, it reaches the lower threshold, is no mock, and knowledge holds nothing
      against it but low novelty or unclear capacity. Every other one is rejected. */
  lemma CandidateIff(r: Review, g: Profile, p: Policy)
    requires Decide(r, g, p).0 != Active
    ensures Decide(r, g, p) == (Candidate, KeepCandidate) || Decide(r, g, p) == (Rejected, Reject)
    ensures Decide(r, g, p).0 == Candidate <==>
              && (r.bottomLinePassed || SoftBacktest(r.gate))
              && r.finalScore >= g.keepThreshold && r.sourceKind != Mock
              && forall k | k in r.knowledge :: k == LowNovelty || k == CapacityUnclear
  {
    forall k: KnowledgeReason
      ensures Knowledge(k) in CandidateBlockedReasons(r, g) <==> k in r.knowledge
    {
      KnowledgeReasonsListed(r, g, p, k);
    }
  }

  /** The proposal, no mock itself, reaches the threshold and the score of an active mock. */
  predicate OverMock(r: Review, g: Profile) {
    && r.active.Some? && r.active.value.sourceKind == Mock && r.sourceKind != Mock
    && r.finalScore >= r.active.value.finalScore && r.finalScore >= g.promoteThreshold
  }

  /** The reasons scores, cooldown and macro status give against a promotion, one by one. */
  lemma StandingReasonsAre(r: Review, g: Profile, p: Policy, x: Reason)
    requires g.cooldownDays >= 1
    ensures x in StandingReasons(r, g, p) <==> match x
      case LlmMockFallback => r.sourceKind == Mock
      case BelowPromoteThreshold => r.finalScore < g.promoteThreshold
      case DeltaBelowThreshold =>
        r.active.Some? && r.finalScore < r.active.value.finalScore + g.challengerMinDelta && !OverMock(r, g)
      case CooldownActive =>
        && r.active.Some? && !OverMock(r, g)
        && !CooldownOver(r.active.value.promotedAt, r.now, g.cooldownDays)
      case MacroProviderDegraded => p.blockOnMacroDegrade && r.macroDegraded
      case _ => false
  {
  }

  /** The reasons listed against a promotion are these, what is missing from the backtest when one is
      required, and what knowledge holds against the proposal. */
  lemma PromotionReasonsAre(r: Review, g: Profile, p: Policy, x: Reason)
    ensures x in PromotionBlockedReasons(r, g, p) <==> match x
      case BacktestMissing => p.requireBacktest && r.gate.None?
      case Backtest(_) => p.requireBacktest && x in BacktestReasons(r.gate)
      case Knowledge(k) => k in r.knowledge
      case _ => x in StandingReasons(r, g, p)
  {
    var standing, knowledge := StandingReasons(r, g, p), KnowledgeReasons(r.knowledge);
    var backtest := if p.requireBacktest then BacktestReasons(r.gate) else [];
    assert x in PromotionBlockedReasons(r, g, p) <==> x in standing || x in backtest || x in knowledge;
    assert x.Knowledge? || x.Backtest? || x == BacktestMissing ==> x !in standing;
    assert x == BacktestMissing && r.gate.Some? ==> x !in backtest by {
      if r.gate.Some? && !r.gate.value.eligible {
        BacktestReasonsAre(r.gate.value);
      }
    }
  }

  /** The reasons a failed backtest gives are its own, in order, or one in their place. */
  lemma {:induction false} TextsAre(ts: seq<string>, i: nat)
    requires i < |ts|
    ensures Texts(ts)[i] == Backtest(ts[i])
  {
    if i > 0 {
      TextsAre(ts[1..], i - 1);
    }
  }

  lemma BacktestReasonsAre(gate: Gate)
    requires !gate.eligible
    ensures var rs := BacktestReasons(Some(gate));
            && |rs| == Max(1, |gate.blockedReasons|)
            && forall i | 0 <= i < |rs| ::
                 rs[i] == Backtest(if gate.blockedReasons == [] then "backtest_not_passed"
                                   else gate.blockedReasons[i])
  {
    forall i | 0 <= i < |gate.blockedReasons|
      ensures Texts(gate.blockedReasons)[i] == Backtest(gate.blockedReasons[i])
    {
      TextsAre(gate.blockedReasons, i);
    }
  }

  /** The reasons listed against staying a candidate, one by one. */
  lemma CandidateReasonsAre(r: Review, g: Profile)
    ensures var rs := CandidateBlockedReasons(r, g);
            && (BottomLineFailed in rs <==> !r.bottomLinePassed && !SoftBacktest(r.gate))
            && (LlmMockFallback in rs <==> r.sourceKind == Mock)
            && (BelowKeepThreshold in rs <==> r.finalScore < g.keepThreshold)
            && forall x: Reason | x in rs ::
                 x == BottomLineFailed || x == LlmMockFallback || x == BelowKeepThreshold || x.Knowledge?
  {
    var knowledge := KnowledgeReasons(r.knowledge);
    assert forall x: Reason | x in knowledge :: x.Knowledge?;
  }

  /** The phase a decision leaves a proposal in. */
  lemma PhaseIs(r: Review, g: Profile, p: Policy)
    requires g.cooldownDays >= 1
    ensures var (status, action) := Decide(r, g, p);
            LifecyclePhase(r, g, action) ==
              if status == Active then PromotionReady
              else if status == Rejected then RejectedPhase
              else if r.active.Some? && !CooldownOver(r.active.value.promotedAt, r.now, g.cooldownDays)
                then CandidateCooldown
              else CandidateWatch
  {
  }
}
