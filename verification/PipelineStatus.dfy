/** The stored status of the sync pipeline: stage durations and the count of consecutive failures
    (src/openhamster/api/services.py). Instants are whole microseconds, recorded durations whole
    milliseconds, as the source truncates them. */
module PipelineStatus {
  import opened Prelude

  datatype State = Idle | Running | Degraded | Failed

  type Instant = int

  datatype Status = Status(
    state: State,
    stage: Option<string>,
    stageStartedAt: Option<Instant>,
    durations: map<string, nat>,
    lastRunAt: Option<Instant>,
    lastSuccessAt: Option<Instant>,
    lastFailureAt: Option<Instant>,
    failures: nat,
    lastDuration: Option<nat>,
    degraded: bool)

  const INITIAL := Status(Idle, None, None, map[], None, None, None, 0, None, false)

  /** The arguments of one status write; None is an argument left out. */
  datatype Write = Write(
    state: State,
    stage: Option<string>,
    now: Instant,
    lastSuccessAt: Option<Instant>,
    lastFailureAt: Option<Instant>,
    failures: Option<nat>,
    lastDuration: Option<nat>,
    degraded: Option<bool>)

  /** `max(0, int(seconds * 1000))`. */
  function Elapsed(since: Instant, now: Instant): nat {
    if now <= since then 0 else (now - since) / 1000
  }

  function Kept<T>(given: Option<T>, stored: Option<T>): Option<T> {
    if given.Some? then given else stored
  }

  /** The write names a stage other than the stored one. */
  predicate Switches(s: Status, w: Write) {
    w.state == Running && w.stage.Some? && w.stage != s.stage
  }

  /** The write adds the time since the stored stage began to that stage's entry. An empty stage
      name does not count as one. */
  predicate Settles(s: Status, w: Write) {
    && s.stage.Some? && s.stageStartedAt.Some?
    && ((Switches(s, w) && w.stage.value != "") || (s.state == Running && w.state != Running))
  }

  function DurationOf(durations: map<string, nat>, stage: string): nat {
    if stage in durations then durations[stage] else 0
  }

  function Durations(s: Status, w: Write): map<string, nat> {
    var base := if w.state == Running && s.state != Running then map[] else s.durations;
    if Settles(s, w) then
      base[s.stage.value := DurationOf(base, s.stage.value) + Elapsed(s.stageStartedAt.value, w.now)]
    else base
  }

  /** `_set_pipeline_runtime_status`. */
  function Written(s: Status, w: Write): Status {
    var started :=
      if w.state != Running then None
      else if Switches(s, w) || s.stageStartedAt.None? then Some(w.now)
      else s.stageStartedAt;
    Status(w.state, if w.state == Running then Kept(w.stage, s.stage) else None, started, Durations(s, w),
           Some(w.now), Kept(w.lastSuccessAt, s.lastSuccessAt), Kept(w.lastFailureAt, s.lastFailureAt),
           if w.failures.Some? then w.failures.value else s.failures,
           Kept(w.lastDuration, s.lastDuration),
           if w.degraded.Some? then w.degraded.value else s.degraded)
  }

  // ----- One sync -----

  datatype StageWrite = StageWrite(stage: string, now: Instant)

  /** How a sync ends: with the success write, with the failure write, with the failure write
      after the success write (its last steps raised), or killed, writing nothing more. */
  datatype Ending =
    | Succeeded(degraded: bool, at: Instant)
    | Raised(at: Instant)
    | RaisedLate(degraded: bool, at: Instant, raisedAt: Instant)
    | Killed

  datatype SyncRun = SyncRun(startedAt: Instant, stages: seq<StageWrite>, ending: Ending)

  function StageOf(w: StageWrite): Write {
    Write(Running, Some(w.stage), w.now, None, None, None, None, Some(false))
  }

  function WithBaseline(s: Status, now: Instant): Status {
    if s.lastRunAt.Some? then s else Written(s, StageOf(StageWrite("startup_bootstrap", now)))
  }

  function Opening(startedAt: Instant): Write {
    StageOf(StageWrite("sync_event_stream", startedAt))
  }

  function Staged(s: Status, stages: seq<StageWrite>): Status {
    if stages == [] then s
    else Written(Staged(s, stages[..|stages| - 1]), StageOf(stages[|stages| - 1]))
  }

  /** The status once the opening and stage writes of `r` are done. */
  function Underway(s: Status, r: SyncRun): Status {
    Staged(Written(s, Opening(r.startedAt)), r.stages)
  }

  function SuccessWrite(startedAt: Instant, degraded: bool, at: Instant): Write {
    Write(if degraded then Degraded else Idle, None, at, Some(at), None, Some(0), Some(Elapsed(startedAt, at)),
          Some(degraded))
  }

  function FailureWrite(s: Status, startedAt: Instant, at: Instant): Write {
    Write(Failed, None, at, None, Some(at), Some(s.failures + 1), Some(Elapsed(startedAt, at)), Some(true))
  }

  function Closed(s: Status, startedAt: Instant, ending: Ending): Status {
    match ending
    case Succeeded(degraded, at) => Written(s, SuccessWrite(startedAt, degraded, at))
    case Raised(at) => Written(s, FailureWrite(s, startedAt, at))
    case RaisedLate(degraded, at, raisedAt) =>
      var done := Written(s, SuccessWrite(startedAt, degraded, at));
      Written(done, FailureWrite(done, startedAt, raisedAt))
    case Killed => s
  }

  function Synced(s: Status, r: SyncRun): Status {
    Closed(Underway(s, r), r.startedAt, r.ending)
  }

  class StatusStore {
    var status: Status

    constructor ()
      ensures status == INITIAL
    {
      status := INITIAL;
    }

    method SetStatus(w: Write)
      modifies this
      ensures status == Written(old(status), w)
    {
      var previous := status;
      var durations := previous.durations;
      if w.state == Running && previous.state != Running {
        durations := map[];
      }
      if previous.stage.Some? && previous.stageStartedAt.Some? {
        var stage := previous.stage.value;
        if w.state == Running && w.stage.Some? && w.stage.value != "" && w.stage.value != stage {
          var elapsed := Elapsed(previous.stageStartedAt.value, w.now);
          durations := durations[stage := DurationOf(durations, stage) + elapsed];
        } else if previous.state == Running && w.state != Running {
          var elapsed := Elapsed(previous.stageStartedAt.value, w.now);
          durations := durations[stage := DurationOf(durations, stage) + elapsed];
        }
      }
      var effectiveStage, startedAt := None, None;
      if w.state == Running {
        effectiveStage := if w.stage.Some? then w.stage else previous.stage;
        if w.stage.Some? && w.stage != previous.stage {
          startedAt := Some(w.now);
        } else {
          startedAt := if previous.stageStartedAt.Some? then previous.stageStartedAt else Some(w.now);
        }
      }
      var failures := if w.failures.Some? then w.failures.value else previous.failures;
      var degraded := if w.degraded.Some? then w.degraded.value else previous.degraded;
      status := Status(w.state, effectiveStage, startedAt, durations, Some(w.now),
                       Kept(w.lastSuccessAt, previous.lastSuccessAt), Kept(w.lastFailureAt, previous.lastFailureAt),
                       failures, Kept(w.lastDuration, previous.lastDuration), degraded);
    }

    method SetStage(stage: string, now: Instant)
      modifies this
      ensures status == Written(old(status), StageOf(StageWrite(stage, now)))
    {
      SetStatus(Write(Running, Some(stage), now, None, None, None, None, Some(false)));
    }

    /** `ensure_pipeline_runtime_status_baseline`: the first write of a fresh database. Every write
        stores a last run time, so one without has none. */
    method EnsureBaseline(now: Instant)
      modifies this
      ensures status == WithBaseline(old(status), now)
    {
      if status.lastRunAt.Some? {
        return;
      }
      SetStage("startup_bootstrap", now);
    }

    /** The status writes of one `sync_agent_state`. */
    method Sync(r: SyncRun)
      modifies this
      ensures status == Synced(old(status), r)
    {
      SetStage("sync_event_stream", r.startedAt);
      ghost var start := status;
      for i := 0 to |r.stages|
        invariant status == Staged(start, r.stages[..i])
      {
        SetStage(r.stages[i].stage, r.stages[i].now);
        assert r.stages[..i + 1][..i] == r.stages[..i];
      }
      assert r.stages[..|r.stages|] == r.stages;
      if r.ending.Succeeded? || r.ending.RaisedLate? {
        var degraded := r.ending.degraded;
        SetStatus(Write(if degraded then Degraded else Idle, None, r.ending.at, Some(r.ending.at), None, Some(0),
                        Some(Elapsed(r.startedAt, r.ending.at)), Some(degraded)));
      }
      if r.ending.Raised? || r.ending.RaisedLate? {
        var failedAt := if r.ending.Raised? then r.ending.at else r.ending.raisedAt;
        var count := status.failures + 1;
        SetStatus(Write(Failed, None, failedAt, None, Some(failedAt), Some(count),
                        Some(Elapsed(r.startedAt, failedAt)), Some(true)));
      }
    }
  }

  // ----- Summing the recorded durations -----

  ghost function Sum(m: map<string, nat>): nat {
    if m == map[] then 0
    else
      assert (forall k :: k !in m) ==> m == map[];
      var k :| k in m;
      m[k] + Sum(m - {k})
  }

  lemma {:induction false} SumRemoves(m: map<string, nat>, k: string)
    requires k in m
    ensures Sum(m) == m[k] + Sum(m - {k})
    decreases |m|
  {
    assert (forall x :: x !in m) ==> m == map[];
    var j :| j in m && Sum(m) == m[j] + Sum(m - {j});
    if j != k {
      SumRemoves(m - {j}, k);
      SumRemoves(m - {k}, j);
      assert m - {j} - {k} == m - {k} - {j};
    }
  }

  lemma SumAdds(m: map<string, nat>, k: string, extra: nat)
    ensures Sum(m[k := DurationOf(m, k) + extra]) == Sum(m) + extra
  {
    var m' := m[k := DurationOf(m, k) + extra];
    SumRemoves(m', k);
    assert m' - {k} == m - {k};
    if k in m {
      SumRemoves(m, k);
    } else {
      assert m - {k} == m;
    }
  }

  // ----- Where the time of a run goes -----

  /** A status as the pipeline leaves it: a stage and its start are stored exactly while running. */
  predicate Consistent(s: Status) {
    (s.state == Running <==> s.stage.Some?) && (s.stage.Some? <==> s.stageStartedAt.Some?)
  }

  /** The durations of a run opened at `openedAt` account for the time up to the current stage,
      short of `dropped` microseconds. */
  ghost predicate Accounts(s: Status, openedAt: Instant, dropped: int) {
    && Consistent(s) && s.state == Running
    && s.stageStartedAt.value - openedAt == 1000 * Sum(s.durations) + dropped
  }

  /** The time a write while running fails to record: none when the stage stays, the fraction of a
      millisecond when it changes, and all of it when the new stage has no name or the clock went
      back. */
  function Dropped(s: Status, w: Write): int
    requires Consistent(s) && s.state == Running
  {
    if !Switches(s, w) then 0
    else if w.stage.value == "" || w.now <= s.stageStartedAt.value then w.now - s.stageStartedAt.value
    else (w.now - s.stageStartedAt.value) % 1000
  }

  lemma OpeningAccounts(s: Status, w: Write)
    requires Consistent(s) && s.state != Running && w.state == Running && w.stage.Some?
    ensures Accounts(Written(s, w), w.now, 0)
  {
  }

  /** A write while running, for any stage and any clock, loses exactly `Dropped`. */
  lemma RunningWriteAccounts(s: Status, w: Write, openedAt: Instant, dropped: int)
    requires Accounts(s, openedAt, dropped) && w.state == Running
    ensures Accounts(Written(s, w), openedAt, dropped + Dropped(s, w))
  {
    if Settles(s, w) {
      SumAdds(s.durations, s.stage.value, Elapsed(s.stageStartedAt.value, w.now));
    }
  }

  function LastInstant(stages: seq<StageWrite>, since: Instant): Instant {
    if stages == [] then since else stages[|stages| - 1].now
  }

  /** Stages are named and the clock does not run back. */
  predicate Orderly(stages: seq<StageWrite>, since: Instant) {
    stages == [] ||
    var earlier, last := stages[..|stages| - 1], stages[|stages| - 1];
    Orderly(earlier, since) && last.stage != "" && LastInstant(earlier, since) <= last.now
  }

  predicate WholeMilliseconds(stages: seq<StageWrite>, since: Instant) {
    since % 1000 == 0 && forall i | 0 <= i < |stages| :: stages[i].now % 1000 == 0
  }

  lemma StageDropsLittle(s: Status, w: StageWrite)
    requires Consistent(s) && s.state == Running && w.stage != "" && s.stageStartedAt.value <= w.now
    ensures Written(s, StageOf(w)).stageStartedAt.value <= w.now
    ensures 0 <= Dropped(s, StageOf(w)) <= 999
    ensures s.stageStartedAt.value % 1000 == 0 && w.now % 1000 == 0 ==>
              Dropped(s, StageOf(w)) == 0 && Written(s, StageOf(w)).stageStartedAt.value % 1000 == 0
  {
  }

  lemma {:induction false} StagesAccount(s: Status, stages: seq<StageWrite>, openedAt: Instant, before: int)
    returns (dropped: int)
    requires Accounts(s, openedAt, before) && Orderly(stages, s.stageStartedAt.value)
    ensures Accounts(Staged(s, stages), openedAt, dropped)
    ensures Staged(s, stages).stageStartedAt.value <= LastInstant(stages, s.stageStartedAt.value)
    ensures before <= dropped <= before + 999 * |stages|
    ensures WholeMilliseconds(stages, s.stageStartedAt.value) ==>
              dropped == before && Staged(s, stages).stageStartedAt.value % 1000 == 0
  {
    if stages == [] {
      dropped := before;
    } else {
      var n := |stages| - 1;
      var earlier := StagesAccount(s, stages[..n], openedAt, before);
      var mid := Staged(s, stages[..n]);
      StageDropsLittle(mid, stages[n]);
      RunningWriteAccounts(mid, StageOf(stages[n]), openedAt, earlier);
      dropped := earlier + Dropped(mid, StageOf(stages[n]));
    }
  }

  /** Time before `startedAt` that a sync opened then finds in the durations, or adds to them when
      it closes the stage it finds open: none unless the stored state was already running. */
  ghost function Carried(s: Status, startedAt: Instant): int
    requires Consistent(s)
  {
    if s.state != Running then 0
    else if s.stage == Opening(startedAt).stage then 1000 * Sum(s.durations) + startedAt - s.stageStartedAt.value
    else 1000 * (Sum(s.durations) + Elapsed(s.stageStartedAt.value, startedAt))
  }

  lemma OpeningCarries(s: Status, startedAt: Instant)
    requires Consistent(s)
    ensures Accounts(Written(s, Opening(startedAt)), startedAt, -Carried(s, startedAt))
  {
    var w := Opening(startedAt);
    if s.state == Running {
      if Settles(s, w) {
        SumAdds(s.durations, s.stage.value, Elapsed(s.stageStartedAt.value, startedAt));
      }
    } else {
      OpeningAccounts(s, w);
    }
  }

  /** The start of the stage open after the opening write: the stored one when it already was the
      opening stage. */
  function OpenedStage(s: Status, startedAt: Instant): Instant
    requires Consistent(s)
  {
    if s.stage == Opening(startedAt).stage then s.stageStartedAt.value else startedAt
  }

  /** While a sync runs, whatever status it found and whatever stages it passes through or re-enters,
      the recorded durations sum to the start of the current stage minus the start of the run plus
      what was carried in, short of less than a millisecond for each stage write and of nothing on a
      clock of whole milliseconds. */
  lemma StageDurationsAddUp(s: Status, r: SyncRun)
    requires Consistent(s) && Orderly(r.stages, OpenedStage(s, r.startedAt))
    ensures var u := Underway(s, r);
            && u.stageStartedAt.Some?
            && var due := u.stageStartedAt.value - r.startedAt + Carried(s, r.startedAt);
               && 1000 * Sum(u.durations) <= due <= 1000 * Sum(u.durations) + 999 * |r.stages|
               && (WholeMilliseconds(r.stages, OpenedStage(s, r.startedAt)) ==> due == 1000 * Sum(u.durations))
  {
    OpeningCarries(s, r.startedAt);
    var dropped := StagesAccount(Written(s, Opening(r.startedAt)), r.stages, r.startedAt, -Carried(s, r.startedAt));
  }

  /** On a clock of whole milliseconds the sum is exactly stage start minus run start if and only if
      the sync found no run open, or one that had recorded nothing and whose stage began at the same
      instant. */
  lemma StageDurationsAreExactIff(s: Status, r: SyncRun)
    requires Consistent(s) && Orderly(r.stages, OpenedStage(s, r.startedAt))
    requires WholeMilliseconds(r.stages, r.startedAt)
    requires s.state == Running ==> s.stageStartedAt.value <= r.startedAt && s.stageStartedAt.value % 1000 == 0
    ensures var u := Underway(s, r);
            && u.stageStartedAt.Some?
            && (1000 * Sum(u.durations) == u.stageStartedAt.value - r.startedAt
                <==> s.state != Running || (Sum(s.durations) == 0 && s.stageStartedAt.value == r.startedAt))
  {
    StageDurationsAddUp(s, r);
  }

  /** The first sync on a fresh database is such a case: it finds the baseline's `startup_bootstrap`
      stage open and counts the time since then, so its durations sum to more than its own time. */
  lemma FirstSyncCountsStartup(r: SyncRun, bootAt: Instant)
    requires r.stages == [] && bootAt + 1000 <= r.startedAt
    ensures var s := WithBaseline(INITIAL, bootAt);
            var u := Underway(s, r);
            && u.stageStartedAt == Some(r.startedAt)
            && Sum(u.durations) == Elapsed(bootAt, r.startedAt) > 0
  {
    var s := WithBaseline(INITIAL, bootAt);
    OpeningAccounts(INITIAL, StageOf(StageWrite("startup_bootstrap", bootAt)));
    assert Sum(s.durations) == 0;
    OpeningCarries(s, r.startedAt);
  }

  lemma ClosingWriteAdds(s: Status, w: Write)
    requires Consistent(s) && w.state != Running
    ensures Consistent(Written(s, w)) && Written(s, w).state != Running
    ensures Sum(Written(s, w).durations) ==
              Sum(s.durations) + if s.state == Running then Elapsed(s.stageStartedAt.value, w.now) else 0
  {
    if s.state == Running {
      SumAdds(s.durations, s.stage.value, Elapsed(s.stageStartedAt.value, w.now));
    }
  }

  /** The closing write adds the time since the stage began, in whole milliseconds; a close dated
      before that, as a sync that succeeds writes it, adds nothing. */
  lemma ClosingAddsLastStage(s: Status, r: SyncRun)
    requires Consistent(s) && !r.ending.Killed?
    ensures var u, done := Underway(s, r), Synced(s, r);
            && u.stageStartedAt.Some? && Consistent(done)
            && Sum(done.durations) == Sum(u.durations) + Elapsed(u.stageStartedAt.value, r.ending.at)
            && (Sum(done.durations) == Sum(u.durations) <==> r.ending.at < u.stageStartedAt.value + 1000)
  {
    UnderwayIsConsistent(s, r);
    var u := Underway(s, r);
    if r.ending.Raised? {
      ClosingWriteAdds(u, FailureWrite(u, r.startedAt, r.ending.at));
    } else {
      var w := SuccessWrite(r.startedAt, r.ending.degraded, r.ending.at);
      ClosingWriteAdds(u, w);
      if r.ending.RaisedLate? {
        ClosingWriteAdds(Written(u, w), FailureWrite(Written(u, w), r.startedAt, r.ending.raisedAt));
      }
    }
  }

  lemma {:induction false} StagedIsConsistent(s: Status, stages: seq<StageWrite>)
    requires Consistent(s) && s.state == Running
    ensures Consistent(Staged(s, stages)) && Staged(s, stages).state == Running
    ensures Staged(s, stages).failures == s.failures
  {
    if stages != [] {
      StagedIsConsistent(s, stages[..|stages| - 1]);
    }
  }

  lemma UnderwayIsConsistent(s: Status, r: SyncRun)
    requires Consistent(s)
    ensures Consistent(Underway(s, r)) && Underway(s, r).state == Running
    ensures Underway(s, r).failures == s.failures
  {
    StagedIsConsistent(Written(s, Opening(r.startedAt)), r.stages);
  }

  /** A sync that finds the status of a killed one still running continues its account: the killed
      stage is charged with the time until the new sync began. */
  lemma KilledRunCarriesOver(s: Status, r: SyncRun, openedAt: Instant, dropped: int)
    requires Accounts(s, openedAt, dropped)
    ensures Accounts(Written(s, Opening(r.startedAt)), openedAt, dropped + Dropped(s, Opening(r.startedAt)))
    ensures s.stage != Some("sync_event_stream") && s.stageStartedAt.value <= r.startedAt ==>
              Dropped(s, Opening(r.startedAt)) == (r.startedAt - s.stageStartedAt.value) % 1000
  {
    RunningWriteAccounts(s, Opening(r.startedAt), openedAt, dropped);
  }

  // ----- Consecutive failures -----

  function SyncedAll(s: Status, runs: seq<SyncRun>): Status {
    if runs == [] then s else Synced(SyncedAll(s, runs[..|runs| - 1]), runs[|runs| - 1])
  }

  lemma SyncedAllAppend(s: Status, runs: seq<SyncRun>, last: SyncRun)
    ensures SyncedAll(s, runs + [last]) == Synced(SyncedAll(s, runs), last)
  {
    assert (runs + [last])[..|runs|] == runs;
  }

  /** The place after the last sync that succeeded. */
  function AfterLastSuccess(runs: seq<SyncRun>): (k: nat)
    ensures k <= |runs|
  {
    if runs == [] || runs[|runs| - 1].ending.Succeeded? then |runs| else AfterLastSuccess(runs[..|runs| - 1])
  }

  predicate Fails(r: SyncRun) {
    r.ending.Raised? || r.ending.RaisedLate?
  }

  function FailedAmong(runs: seq<SyncRun>): nat {
    if runs == [] then 0
    else FailedAmong(runs[..|runs| - 1]) + if Fails(runs[|runs| - 1]) then 1 else 0
  }

  lemma {:induction false} SomeFailed(runs: seq<SyncRun>)
    ensures FailedAmong(runs) > 0 <==> exists i | 0 <= i < |runs| :: Fails(runs[i])
  {
    if runs != [] {
      SomeFailed(runs[..|runs| - 1]);
      if FailedAmong(runs[..|runs| - 1]) > 0 {
        var i :| 0 <= i < |runs| - 1 && Fails(runs[..|runs| - 1][i]);
        assert Fails(runs[i]);
      }
    }
  }

  /** The syncs since the last that succeeded. */
  function Tail(runs: seq<SyncRun>): seq<SyncRun> {
    runs[AfterLastSuccess(runs)..]
  }

  /** No sync raises after its success write when an earlier one has failed already. */
  predicate NoLateRaiseAfterFailure(runs: seq<SyncRun>) {
    forall i, j | 0 <= i < j < |runs| :: runs[j].ending.RaisedLate? ==> !Fails(runs[i])
  }

  lemma NoLateRaiseSplits(runs: seq<SyncRun>, last: SyncRun)
    ensures NoLateRaiseAfterFailure(runs + [last]) <==>
              NoLateRaiseAfterFailure(runs) && (last.ending.RaisedLate? ==> FailedAmong(runs) == 0)
  {
    var all := runs + [last];
    SomeFailed(runs);
    if NoLateRaiseAfterFailure(all) {
      forall i, j | 0 <= i < j < |runs|
        ensures runs[j].ending.RaisedLate? ==> !Fails(runs[i])
      {
        assert all[i] == runs[i] && all[j] == runs[j];
      }
      forall i | 0 <= i < |runs|
        ensures last.ending.RaisedLate? ==> !Fails(runs[i])
      {
        assert all[i] == runs[i] && all[|runs|] == last;
      }
    }
  }

  lemma TailSplits(runs: seq<SyncRun>)
    requires runs != [] && !runs[|runs| - 1].ending.Succeeded?
    ensures Tail(runs) == Tail(runs[..|runs| - 1]) + [runs[|runs| - 1]]
  {
  }

  lemma TailAppend(runs: seq<SyncRun>, last: SyncRun)
    requires !last.ending.Succeeded?
    ensures Tail(runs + [last]) == Tail(runs) + [last]
  {
    assert (runs + [last])[..|runs|] == runs;
    TailSplits(runs + [last]);
  }

  /** What `FailuresAreTrailingIff` says of a stored count. */
  predicate CountExplained(count: nat, tail: seq<SyncRun>) {
    && (count == FailedAmong(tail) <==> NoLateRaiseAfterFailure(tail))
    && count <= FailedAmong(tail) && (count == 0 <==> FailedAmong(tail) == 0)
  }

  /** The stored count after one more sync. */
  function Counted(count: nat, ending: Ending): nat {
    match ending
    case Succeeded(_, _) => 0
    case Raised(_) => count + 1
    case RaisedLate(_, _, _) => 1
    case Killed => count
  }

  lemma SyncCounts(s: Status, r: SyncRun)
    requires Consistent(s)
    ensures Consistent(Synced(s, r)) && Synced(s, r).failures == Counted(s.failures, r.ending)
  {
    UnderwayIsConsistent(s, r);
  }

  lemma FailedAmongAppend(runs: seq<SyncRun>, last: SyncRun)
    ensures FailedAmong(runs + [last]) == FailedAmong(runs) + if Fails(last) then 1 else 0
  {
    assert (runs + [last])[..|runs|] == runs;
  }

  lemma CountedIsExplained(count: nat, tail: seq<SyncRun>, last: SyncRun)
    requires CountExplained(count, tail) && !last.ending.Succeeded?
    ensures CountExplained(Counted(count, last.ending), tail + [last])
  {
    NoLateRaiseSplits(tail, last);
    FailedAmongAppend(tail, last);
  }

  lemma {:induction false} FailureCount(s: Status, runs: seq<SyncRun>)
    requires Consistent(s) && s.failures == 0
    ensures Consistent(SyncedAll(s, runs)) && CountExplained(SyncedAll(s, runs).failures, Tail(runs))
  {
    if runs != [] {
      var n := |runs| - 1;
      FailureCount(s, runs[..n]);
      SyncCounts(SyncedAll(s, runs[..n]), runs[n]);
      if runs[n].ending.Succeeded? {
        assert Tail(runs) == [];
      } else {
        TailSplits(runs);
        CountedIsExplained(SyncedAll(s, runs[..n]).failures, Tail(runs[..n]), runs[n]);
      }
    }
  }

  /** After any syncs the stored count is the number that failed since the last that succeeded,
      exactly when none of these raised after its success write with an earlier failure among them:
      such a sync starts the count over at one. */
  lemma FailuresAreTrailingIff(s: Status, runs: seq<SyncRun>)
    requires Consistent(s) && s.failures == 0
    ensures SyncedAll(s, runs).failures == FailedAmong(Tail(runs)) <==> NoLateRaiseAfterFailure(Tail(runs))
    ensures SyncedAll(s, runs).failures == 0 <==> FailedAmong(Tail(runs)) == 0
  {
    FailureCount(s, runs);
  }

  /** After any syncs, one that raises after its success write leaves the count at one, whatever
      failed before it. */
  lemma LateRaiseRestartsCount(s: Status, runs: seq<SyncRun>, late: SyncRun)
    requires Consistent(s) && s.failures == 0 && late.ending.RaisedLate?
    ensures SyncedAll(s, runs + [late]).failures == 1
    ensures FailedAmong(Tail(runs + [late])) == FailedAmong(Tail(runs)) + 1
  {
    FailureCount(s, runs);
    SyncedAllAppend(s, runs, late);
    SyncCounts(SyncedAll(s, runs), late);
    TailAppend(runs, late);
    FailedAmongAppend(Tail(runs), late);
  }

  // ----- What each write stores -----

  /** `ms` whole milliseconds lie between the two instants, none if the clock went back. */
  predicate IsMillis(ms: nat, since: Instant, now: Instant) {
    if now < since then ms == 0 else 1000 * ms <= now - since < 1000 * ms + 1000
  }

  /** The time `ms` is added to the entry of `stage` and no other entry changes. */
  ghost predicate Credits(durations: map<string, nat>, durations': map<string, nat>, stage: string, ms: nat) {
    && stage in durations'
    && durations'[stage] == ms + (if stage in durations then durations[stage] else 0)
    && forall k | k != stage ::
         (k in durations' <==> k in durations) && (k in durations ==> durations'[k] == durations[k])
  }

  /** A stage write while running charges the time since the stored stage began to that stage, and the
      new stage begins; naming the stored stage again changes neither, and an unnamed one is not
      charged for. */
  lemma StageWriteRecords(s: Status, stage: string, now: Instant) returns (ms: nat)
    requires Consistent(s) && s.state == Running
    ensures IsMillis(ms, s.stageStartedAt.value, now)
    ensures var s' := Written(s, StageOf(StageWrite(stage, now)));
            && s'.state == Running && s'.stage == Some(stage) && s'.lastRunAt == Some(now) && !s'.degraded
            && s'.stageStartedAt == (if s.stage == Some(stage) then s.stageStartedAt else Some(now))
            && if s.stage == Some(stage) || stage == "" then s'.durations == s.durations
               else Credits(s.durations, s'.durations, s.stage.value, ms)
  {
    ms := Elapsed(s.stageStartedAt.value, now);
  }

  /** A stage write that opens a run clears the durations of the last one. */
  lemma OpeningRecords(s: Status, stage: string, now: Instant)
    requires Consistent(s) && s.state != Running
    ensures var s' := Written(s, StageOf(StageWrite(stage, now)));
            && s'.state == Running && s'.stage == Some(stage) && s'.stageStartedAt == Some(now)
            && s'.durations == map[] && s'.lastRunAt == Some(now) && !s'.degraded
  {
  }

  lemma {:induction false} StagedRecords(s: Status, stages: seq<StageWrite>, openedAt: Instant)
    requires Consistent(s) && s.state == Running && s.lastRunAt == Some(openedAt) && !s.degraded
    ensures var u := Staged(s, stages);
            && u.stage == (if stages == [] then s.stage else Some(stages[|stages| - 1].stage))
            && u.lastRunAt == Some(if stages == [] then openedAt else stages[|stages| - 1].now)
            && u.lastSuccessAt == s.lastSuccessAt && u.lastFailureAt == s.lastFailureAt
            && u.failures == s.failures && u.lastDuration == s.lastDuration && !u.degraded
  {
    if stages != [] {
      StagedIsConsistent(s, stages[..|stages| - 1]);
      StagedRecords(s, stages[..|stages| - 1], openedAt);
    }
  }

  /** The status of a sync under way: what earlier syncs left stays until it ends. */
  lemma UnderwayRecords(s: Status, r: SyncRun)
    requires Consistent(s)
    ensures var u, n := Underway(s, r), |r.stages|;
            && u.state == Running && !u.degraded
            && u.stage == Some(if n == 0 then "sync_event_stream" else r.stages[n - 1].stage)
            && u.lastRunAt == Some(if n == 0 then r.startedAt else r.stages[n - 1].now)
            && u.lastSuccessAt == s.lastSuccessAt && u.lastFailureAt == s.lastFailureAt
            && u.failures == s.failures && u.lastDuration == s.lastDuration
  {
    UnderwayIsConsistent(s, r);
    StagedRecords(Written(s, Opening(r.startedAt)), r.stages, r.startedAt);
  }

  /** What a sync leaves, for each way it ends. */
  lemma SyncRecords(s: Status, r: SyncRun) returns (ms: nat)
    requires Consistent(s)
    ensures IsMillis(ms, r.startedAt, match r.ending
                                      case Succeeded(_, at) => at
                                      case Raised(at) => at
                                      case RaisedLate(_, _, raisedAt) => raisedAt
                                      case Killed => r.startedAt)
    ensures var done := Synced(s, r);
            match r.ending
            case Succeeded(degraded, at) =>
              && done.state == (if degraded then Degraded else Idle) && done.degraded == degraded
              && done.lastRunAt == Some(at) && done.lastSuccessAt == Some(at) && done.lastFailureAt == s.lastFailureAt
              && done.failures == 0 && done.lastDuration == Some(ms)
            case Raised(at) =>
              && done.state == Failed && done.degraded
              && done.lastRunAt == Some(at) && done.lastSuccessAt == s.lastSuccessAt && done.lastFailureAt == Some(at)
              && done.failures == s.failures + 1 && done.lastDuration == Some(ms)
            case RaisedLate(_, at, raisedAt) =>
              && done.state == Failed && done.degraded
              && done.lastRunAt == Some(raisedAt) && done.lastSuccessAt == Some(at)
              && done.lastFailureAt == Some(raisedAt)
              && done.failures == 1 && done.lastDuration == Some(ms)
            case Killed => done == Underway(s, r)
    ensures !r.ending.Killed? ==> Synced(s, r).stage == None && Synced(s, r).stageStartedAt == None
  {
    UnderwayRecords(s, r);
    ms := match r.ending
          case Succeeded(_, at) => Elapsed(r.startedAt, at)
          case Raised(at) => Elapsed(r.startedAt, at)
          case RaisedLate(_, _, raisedAt) => Elapsed(r.startedAt, raisedAt)
          case Killed => 0;
  }

  /** The first closing write charges the time since the last stage began to that stage. */
  lemma ClosingCredits(s: Status, r: SyncRun) returns (ms: nat)
    requires Consistent(s) && !r.ending.Killed?
    ensures var u := Underway(s, r);
            && u.stage.Some? && u.stageStartedAt.Some?
            && IsMillis(ms, u.stageStartedAt.value, r.ending.at)
            && Credits(u.durations, Synced(s, r).durations, u.stage.value, ms)
  {
    UnderwayIsConsistent(s, r);
    ms := Elapsed(Underway(s, r).stageStartedAt.value, r.ending.at);
  }

  /** The start-up stage is written exactly when nothing has been written before. */
  lemma BaselineIsWrittenOnce(s: Status, now: Instant)
    ensures var s' := WithBaseline(s, now);
            if s.lastRunAt.Some? then s' == s
            else
              s'.state == Running && s'.stage == Some("startup_bootstrap") && s'.lastRunAt == Some(now)
  {
  }
}
