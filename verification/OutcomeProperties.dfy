/** What holds of request runs and of the release cache over every run of the ledger. */
module OutcomeProperties {
  import opened ArtifactProperties
  import opened Collation
  import opened Flattening
  import opened RequestLedger
  import opened Sequences
  import opened Wrappers

  // ----- the invariant -----

  /** A report of the run itself that passes and recommends the disposition. */
  ghost predicate IsPassingReport(s: State, run: string, report: Option<nat>, disposition: Option<string>) {
    && report.Some? && report.value < |s.artifacts|
    && var a := s.artifacts[report.value];
       && a.scope.runId == run && a.kind == VerificationReport
       && Get(a.payload, "verification_status") == Some("pass")
       && disposition.Some? && Get(a.payload, "recommended_answer_disposition") == disposition
  }

  ghost predicate EndingSound(s: State, run: string, e: Ending) {
    || (&& e.httpStatus == 200 && e.verification == Some("pass") && e.failureCode.None?
        && e.outcome in {None, Some("completed"), Some("completed_with_failures")}
        && IsPassingReport(s, run, e.report, e.disposition))
    || (&& 500 <= e.httpStatus <= 599 && e.outcome == Some("failed")
        && e.verification.None? && e.disposition.None? && e.report.None? && e.failureCode.Some?)
  }

  ghost predicate CacheRowSound(s: State, key: (string, string, string), row: CacheRow) {
    && CacheKey(row.scope) == key
    && ReleaseRow(s, row.scope.runId, row.verification, row.answerPlan, row.released) == Success(row)
  }

  ghost predicate OutcomesSound(s: State) {
    && (forall id | id in s.runs && s.runs[id].ending.Some? :: EndingSound(s, id, s.runs[id].ending.value))
    && (forall key | key in s.cache :: CacheRowSound(s, key, s.cache[key]))
  }

  // ----- steps -----

  /** What a later state keeps of an earlier one: artifacts, finished runs, the identity of every run, and
      every cached row. */
  ghost predicate Keeps(s: State, t: State) {
    && s.artifacts <= t.artifacts
    && (forall id | id in s.runs ::
          && id in t.runs && t.runs[id].(ending := None) == s.runs[id].(ending := None)
          && (s.runs[id].ending.Some? ==> t.runs[id] == s.runs[id]))
    && (forall key | key in s.cache :: key in t.cache && t.cache[key] == s.cache[key])
  }

  lemma {:induction false} KeepsTransitive(a: State, b: State, c: State)
    requires Keeps(a, b) && Keeps(b, c)
    ensures Keeps(a, c)
  {}

  lemma {:induction false} SoundLater(s: State, t: State, id: string, e: Ending)
    requires EndingSound(s, id, e) && s.artifacts <= t.artifacts
    ensures EndingSound(t, id, e)
  {}

  lemma {:induction false} CacheSoundLater(s: State, t: State, key: (string, string, string), row: CacheRow)
    requires CacheRowSound(s, key, row) && s.artifacts <= t.artifacts
    ensures CacheRowSound(t, key, row)
  {
    hide GateAgrees, ClaimSetsAgree;
  }

  /** A first ending follows the rules for its status. */
  lemma {:induction false} FinishIsSound(s: State, run: string, f: Finish)
    requires run in s.runs && s.runs[run].ending.None? && FinishRun(s, run, f).Success?
    ensures var (after, row) := FinishRun(s, run, f).value;
      && after == s.(runs := s.runs[run := row]) && row == s.runs[run].(ending := row.ending)
      && row.ending.Some? && EndingSound(after, run, row.ending.value)
      && row.ending.value == Ending(f.outcome, f.verification, f.disposition, f.httpStatus, f.failureCode, f.finishedAt,
                                    row.ending.value.report)
      && (f.report.Some? ==> row.ending.value.report.Some? && row.ending.value.report.value < |s.artifacts|
                             && s.artifacts[row.ending.value.report.value].scope.runId == run
                             && s.artifacts[row.ending.value.report.value].kind == VerificationReport
                             && s.artifacts[row.ending.value.report.value].objectId == f.report)
      && (f.report.None? ==> row.ending.value.report.None?)
  {}

  lemma {:induction false} AppendKeeps(s: State, step: Step)
    requires step.AppendStep?
    ensures Keeps(s, Next(s, step))
  {
    if Append(s, step.kind, step.model, step.prompt, step.text).Success? {
      AppendShape(s, step.kind, step.model, step.prompt, step.text);
    }
    hide Append, PassesChecks, RefsOf, Clash, Matches, Derive;
  }

  lemma {:induction false} FinishKeeps(s: State, step: Step)
    requires step.FinishStep?
    ensures Keeps(s, Next(s, step))
  {
    hide FinalReport, SameEnding;
  }

  lemma {:induction false} NextKeeps(s: State, step: Step)
    ensures Keeps(s, Next(s, step))
  {
    hide ReleaseRow, CacheKey;
    match step
    case AppendStep(_, _, _, _) => AppendKeeps(s, step);
    case FinishStep(_, _) => FinishKeeps(s, step);
    case StartStep(_, _) =>
    case CacheStep(_, _, _, _) =>
    case AddTargets(_, _, _) =>
  }

  lemma {:induction false} NextKeepsOutcomes(s: State, step: Step)
    requires Sound(s) && OutcomesSound(s)
    ensures OutcomesSound(Next(s, step))
  {
    var after := Next(s, step);
    NextKeepsSound(s, step);
    assert s.artifacts <= after.artifacts;
    forall id | id in after.runs && after.runs[id].ending.Some?
        ensures EndingSound(after, id, after.runs[id].ending.value) {
      if id in s.runs && s.runs[id].ending.Some? {
        NextKeeps(s, step);
        SoundLater(s, after, id, s.runs[id].ending.value);
      } else {
        NewEndingSound(s, step, id);
      }
    }
    forall key | key in after.cache ensures CacheRowSound(after, key, after.cache[key]) {
      if key in s.cache {
        NextKeeps(s, step);
        CacheSoundLater(s, after, key, s.cache[key]);
      } else {
        NewCacheRowSound(s, step, key);
      }
    }
  }

  lemma {:induction false} NewEndingSound(s: State, step: Step, id: string)
    requires id in Next(s, step).runs && Next(s, step).runs[id].ending.Some?
             && !(id in s.runs && s.runs[id].ending.Some?)
    ensures EndingSound(Next(s, step), id, Next(s, step).runs[id].ending.value)
  {
    if step.FinishStep? && step.runId in s.runs && s.runs[step.runId].ending.None?
        && FinishRun(s, step.runId, step.finish).Success? {
      FinishIsSound(s, step.runId, step.finish);
      hide FinishRun;
    } else if step.AppendStep? {
      if Append(s, step.kind, step.model, step.prompt, step.text).Success? {
        AppendShape(s, step.kind, step.model, step.prompt, step.text);
      }
      hide Append;
      assert false;
    } else {
      hide FinalReport, ReleaseRow, SameEnding;
      assert false;
    }
  }

  lemma {:induction false} NewCacheRowSound(s: State, step: Step, key: (string, string, string))
    requires key in Next(s, step).cache && key !in s.cache
    ensures CacheRowSound(Next(s, step), key, Next(s, step).cache[key])
  {
    OnlyCachesAdd(s, step, key);
    ReleasedRowSound(s, step, key);
    hide Next, CacheRowSound;
  }

  /** Only a call that caches a release adds to the cache. */
  lemma {:induction false} OnlyCachesAdd(s: State, step: Step, key: (string, string, string))
    requires key in Next(s, step).cache && key !in s.cache
    ensures step.CacheStep?
  {
    if step.AppendStep? {
      if Append(s, step.kind, step.model, step.prompt, step.text).Success? {
        AppendShape(s, step.kind, step.model, step.prompt, step.text);
      }
    }
    hide Append, CacheRelease, FinalReport, SameEnding;
  }

  lemma {:induction false} ReleasedRowSound(s: State, step: Step, key: (string, string, string))
    requires step.CacheStep? && key in Next(s, step).cache && key !in s.cache
    ensures CacheRowSound(Next(s, step), key, Next(s, step).cache[key])
  {
    hide GateAgrees, ClaimSetsAgree;
    assert Next(s, step).artifacts == s.artifacts;
  }

  lemma {:induction false} CallsKeep(s: State, steps: seq<Step>)
    requires Sound(s) && OutcomesSound(s)
    ensures Sound(Calls(s, steps)) && OutcomesSound(Calls(s, steps)) && Keeps(s, Calls(s, steps))
  {
    if steps != [] {
      hide Sound, OutcomesSound, Next, Keeps;
      var front := Calls(s, steps[..|steps| - 1]);
      CallsKeep(s, steps[..|steps| - 1]);
      NextKeepsSound(front, steps[|steps| - 1]);
      NextKeepsOutcomes(front, steps[|steps| - 1]);
      NextKeeps(front, steps[|steps| - 1]);
      KeepsTransitive(s, front, Calls(s, steps));
    } else {
      hide Sound, OutcomesSound;
    }
  }

  lemma {:induction false} AlwaysOutcomesSound(steps: seq<Step>)
    ensures Sound(After(steps)) && OutcomesSound(After(steps))
  {
    CallsKeep(EMPTY, steps);
  }

  // ----- write once -----

  /** After a successful start, the same start finds the run's row in every later state; a start with any
      other field conflicts. */
  lemma {:induction false} StartReplays(steps: seq<Step>, more: seq<Step>, run: Run, active: Option<(string, string)>,
                                        other: Run, nowActive: Option<(string, string)>)
    requires run.ending.None? && Start(After(steps), run, active).Success?
    requires other.ending.None? && other.scope.runId == run.scope.runId
    ensures var later := Calls(Start(After(steps), run, active).value.0, more);
      && run.scope.runId in later.runs && later.runs[run.scope.runId].(ending := None) == run
      && Start(later, other, nowActive) ==
           if other == run then Success((later, later.runs[run.scope.runId])) else Failure(RequestRunConflict)
  {
    var s := After(steps);
    AlwaysOutcomesSound(steps);
    var started := Start(s, run, active).value.0;
    assert Sound(started) && OutcomesSound(started) by {
      assert Next(s, StartStep(run, active)) == started;
      NextKeepsSound(s, StartStep(run, active));
      NextKeepsOutcomes(s, StartStep(run, active));
    }
    CallsKeep(started, more);
  }

  /** A run is finished at most once: no later call changes its row. */
  lemma {:induction false} FinishesOnce(steps: seq<Step>, more: seq<Step>, run: string)
    requires run in After(steps).runs && After(steps).runs[run].ending.Some?
    ensures run in Calls(After(steps), more).runs && Calls(After(steps), more).runs[run] == After(steps).runs[run]
  {
    AlwaysOutcomesSound(steps);
    CallsKeep(After(steps), more);
  }

  /** The call that finished a run, made again later, returns the stored row exactly when its outcome was
      not null. */
  lemma {:induction false} FinishReplays(steps: seq<Step>, more: seq<Step>, run: string, f: Finish)
    requires run in After(steps).runs && After(steps).runs[run].ending.None? && FinishRun(After(steps), run, f).Success?
    ensures var (after, row) := FinishRun(After(steps), run, f).value;
      var later := Calls(after, more);
      FinishRun(later, run, f) == if f.outcome.Some? then Success((later, row)) else Failure(RequestRunConflict)
  {
    var s := After(steps);
    AlwaysOutcomesSound(steps);
    FinishIsSound(s, run, f);
    var (after, row) := FinishRun(s, run, f).value;
    assert Sound(after) && OutcomesSound(after) by {
      assert Next(s, FinishStep(run, f)) == after;
      NextKeepsSound(s, FinishStep(run, f));
      NextKeepsOutcomes(s, FinishStep(run, f));
    }
    CallsKeep(after, more);
    hide After, Calls, Sound, OutcomesSound, EndingSound, FinalReport;
  }

  /** A run that ended with status 200 names a passing report of its own with the same disposition. */
  lemma {:induction false} SuccessNamesPassingReport(steps: seq<Step>, run: string)
    requires var s := After(steps);
      run in s.runs && s.runs[run].ending.Some? && s.runs[run].ending.value.httpStatus == 200
    ensures var s, e := After(steps), After(steps).runs[run].ending.value;
      && IsPassingReport(s, run, e.report, e.disposition)
      && e.verification == Some("pass") && e.failureCode.None?
      && (e.outcome.Some? ==> e.outcome.value in {"completed", "completed_with_failures"})
  {
    AlwaysOutcomesSound(steps);
    hide After, IsPassingReport;
    assert EndingSound(After(steps), run, After(steps).runs[run].ending.value);
  }

  /** Every other ended run failed with a server error and a failure code. */
  lemma {:induction false} OthersFailed(steps: seq<Step>, run: string)
    requires var s := After(steps);
      run in s.runs && s.runs[run].ending.Some? && s.runs[run].ending.value.httpStatus != 200
    ensures var e := After(steps).runs[run].ending.value;
      && 500 <= e.httpStatus <= 599 && e.outcome == Some("failed") && e.failureCode.Some?
      && e.verification.None? && e.disposition.None? && e.report.None?
  {
    AlwaysOutcomesSound(steps);
    hide After, IsPassingReport;
    assert EndingSound(After(steps), run, After(steps).runs[run].ending.value);
  }

  /** A run that ended with status 200 has a null outcome exactly when the call that ended it passed one; where
      a completed outcome is accepted, so is a null one, and it is stored in its place. */
  lemma {:induction false} NullOutcomeIsAccepted(s: State, run: string, f: Finish)
    requires run in s.runs && s.runs[run].ending.None? && f.httpStatus == 200 && FinishRun(s, run, f).Success?
    ensures var row := FinishRun(s, run, f).value.1;
      && row.ending.Some? && (row.ending.value.outcome.None? <==> f.outcome.None?)
      && var other := row.(ending := Some(row.ending.value.(outcome := None)));
         FinishRun(s, run, f.(outcome := None)) == Success((s.(runs := s.runs[run := other]), other))
  {
    FinishIsSound(s, run, f);
    hide SameEnding;
  }

  // ----- the cache -----

  /** What is cached under a key never changes. */
  lemma {:induction false} CachedReleaseIsStable(steps: seq<Step>, more: seq<Step>, key: (string, string, string))
    requires GetCached(After(steps), key).Some?
    ensures GetCached(Calls(After(steps), more), key) == GetCached(After(steps), key)
  {
    AlwaysOutcomesSound(steps);
    CallsKeep(After(steps), more);
  }

  lemma {:induction false} SameClaims(a: seq<string>, b: seq<string>)
    requires Sorted(a) == Sorted(b) && NoDuplicates(a)
    ensures NoDuplicates(b) && forall c :: c in a <==> c in b
  {
    SortedAgree(a, b);
    forall c ensures c in a <==> c in b {
      assert c in multiset(a) <==> c in multiset(b);
    }
    forall i, j | 0 <= i < j < |b| ensures b[i] != b[j] {
      if b[i] == b[j] {
        CountTwice(b, i, j);
        CountOnce(a, b[i]);
      }
    }
  }

  lemma {:induction false} CountTwice(s: seq<string>, i: nat, j: nat)
    requires i < j < |s| && s[i] == s[j]
    ensures multiset(s)[s[i]] >= 2
  {
    assert s == s[..j] + s[j..] && s[..j][i] == s[i] && s[j..][0] == s[i];
    assert s[i] in s[..j] && s[i] in s[j..];
    assert multiset(s) == multiset(s[..j]) + multiset(s[j..]);
  }

  lemma {:induction false} CountOnce(s: seq<string>, c: string)
    requires NoDuplicates(s)
    ensures multiset(s)[c] <= 1
  {
    if s != [] {
      var front, last := s[..|s| - 1], s[|s| - 1];
      assert s == front + [last];
      CountOnce(front, c);
    }
  }

  lemma {:induction false} ClaimSetsAreOne(report: Payload, plan: Payload, answer: Payload)
    requires ClaimSetsAgree(report, plan, answer)
    ensures NoDuplicates(report.releaseableClaimIds) && NoDuplicates(Slots(plan.blocks)) && NoDuplicates(Claims(answer))
    ensures forall c :: c in Claims(answer) <==> c in Slots(plan.blocks)
    ensures forall c :: c in Claims(answer) <==> c in report.releaseableClaimIds
  {
    hide Slots, Claims, NoDuplicates, Sorted, Members;
    MembersCount(Slots(plan.blocks));
    SameClaims(Slots(plan.blocks), report.releaseableClaimIds);
    SameClaims(report.releaseableClaimIds, Claims(answer));
  }

  /** A cached answer comes from one run; the claims it binds, the claims in its plan's slots and the claims
      its report releases are the same set, each listed without repetition. */
  lemma {:induction false} CachedClaimsAgree(steps: seq<Step>, key: (string, string, string))
    requires GetCached(After(steps), key).Some?
    ensures var s, row := After(steps), After(steps).cache[key];
      && row.verification < |s.artifacts| && row.answerPlan < |s.artifacts| && row.released < |s.artifacts|
      && var report, plan, answer := s.artifacts[row.verification], s.artifacts[row.answerPlan],
      s.artifacts[row.released];
         && report.kind == VerificationReport && plan.kind == AnswerPlan && answer.kind == ReleasedAnswer
         && report.scope == plan.scope == answer.scope && CacheKey(answer.scope) == key
         && GetCached(s, key) == Some(answer.payload)
         && NoDuplicates(report.payload.releaseableClaimIds) && NoDuplicates(Slots(plan.payload.blocks))
            && NoDuplicates(Claims(answer.payload))
         && (forall c :: c in Claims(answer.payload) <==> c in Slots(plan.payload.blocks))
         && (forall c :: c in Claims(answer.payload) <==> c in report.payload.releaseableClaimIds)
  {
    var s, row := After(steps), After(steps).cache[key];
    AlwaysOutcomesSound(steps);
    hide After, Slots, Claims, GateAgrees, ClaimSetsAgree, NoDuplicates, Sound;
    assert CacheRowSound(s, key, row);
    ClaimSetsAreOne(s.artifacts[row.verification].payload, s.artifacts[row.answerPlan].payload,
                    s.artifacts[row.released].payload);
  }

  /** The report behind a cached answer passed exactly when it carries a status at all: the gate lets a report
      without one by, and no other. */
  lemma {:induction false} CachedReportPassed(steps: seq<Step>, key: (string, string, string))
    requires GetCached(After(steps), key).Some?
    ensures var s, row := After(steps), After(steps).cache[key];
      && row.verification < |s.artifacts|
      && var report := s.artifacts[row.verification].payload;
         && (Get(report, "verification_status") == Some("pass") <==> "verification_status" in report.texts)
         && (Get(report, "verification_status") == None <==> "verification_status" !in report.texts)
  {
    AlwaysOutcomesSound(steps);
    hide After, ClaimSetsAgree, Sound;
    assert CacheRowSound(After(steps), key, After(steps).cache[key]);
  }

  lemma {:induction false} CachedRowIsFound(s: State, run: string, v: nat, p: nat, r: nat)
    requires ReleaseRow(s, run, v, p, r).Success?
    requires var row := ReleaseRow(s, run, v, p, r).value;
      CacheKey(row.scope) in s.cache && s.cache[CacheKey(row.scope)] == row
    ensures CacheRelease(s, run, v, p, r) == Success((s, r))
  {
    hide GateAgrees, ClaimSetsAgree, CacheKey;
  }

  /** A successful call leaves the row that it names in the cache. */
  lemma {:induction false} CacheHolds(s: State, run: string, v: nat, p: nat, r: nat)
    requires OutcomesSound(s) && CacheRelease(s, run, v, p, r).Success?
    ensures ReleaseRow(s, run, v, p, r).Success? && CacheRelease(s, run, v, p, r).value.1 == r
    ensures var after, row := CacheRelease(s, run, v, p, r).value.0, ReleaseRow(s, run, v, p, r).value;
      && after.artifacts == s.artifacts && Next(s, CacheStep(run, v, p, r)) == after
      && CacheKey(row.scope) in after.cache && after.cache[CacheKey(row.scope)] == row
  {
    hide ReleaseRow, CacheKey;
    var row := ReleaseRow(s, run, v, p, r).value;
    if CacheKey(row.scope) in s.cache {
      var old_row := s.cache[CacheKey(row.scope)];
      assert CacheRowSound(s, CacheKey(row.scope), old_row);
      if old_row.(scope := row.scope) == row {
        SameReleaseSameRow(s, run, old_row, row);
      }
    }
    hide OutcomesSound, CacheRowSound;
  }

  /** Rows that name the same released artifact have the same scope. */
  lemma {:induction false} SameReleaseSameRow(s: State, run: string, a: CacheRow, b: CacheRow)
    requires ReleaseRow(s, a.scope.runId, a.verification, a.answerPlan, a.released) == Success(a)
    requires ReleaseRow(s, run, b.verification, b.answerPlan, b.released) == Success(b) && a.(scope := b.scope) == b
    ensures a == b
  {
    hide GateAgrees, ClaimSetsAgree;
  }

  lemma {:induction false} ReleaseRowLater(s: State, t: State, run: string, v: nat, p: nat, r: nat)
    requires ReleaseRow(s, run, v, p, r).Success? && s.artifacts <= t.artifacts
    ensures ReleaseRow(t, run, v, p, r) == ReleaseRow(s, run, v, p, r)
  {
    hide GateAgrees, ClaimSetsAgree;
  }

  /** The call that cached an answer returns the same answer whenever it is made again. */
  lemma {:induction false} CacheReplays(steps: seq<Step>, more: seq<Step>, run: string, v: nat, p: nat, r: nat)
    requires CacheRelease(After(steps), run, v, p, r).Success?
    ensures var (after, id) := CacheRelease(After(steps), run, v, p, r).value;
      id == r && CacheRelease(Calls(after, more), run, v, p, r) == Success((Calls(after, more), r))
  {
    var s := After(steps);
    AlwaysOutcomesSound(steps);
    hide After, Sound, OutcomesSound, CacheRelease, ReleaseRow;
    CacheHolds(s, run, v, p, r);
    NextKeepsSound(s, CacheStep(run, v, p, r));
    NextKeepsOutcomes(s, CacheStep(run, v, p, r));
    var after := CacheRelease(s, run, v, p, r).value.0;
    CallsKeep(after, more);
    ReleaseRowLater(s, Calls(after, more), run, v, p, r);
    CachedRowIsFound(Calls(after, more), run, v, p, r);
  }
}
