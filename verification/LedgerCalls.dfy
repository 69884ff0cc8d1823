/** When each call of the ledger succeeds, and what a cached answer then rests on. */
module LedgerCalls {
  import opened ArtifactProperties
  import opened Collation
  import opened Flattening
  import opened Hashes
  import opened OutcomeProperties
  import opened RequestLedger
  import opened Sequences
  import opened Wrappers

  // ----- appending -----

  /** The payload is well formed, carries every metadata key, and names its object where the kind demands it. */
  predicate HasMetadata(kind: Kind, text: PayloadText) {
    && text.Json?
    && var p := text.payload;
       && p.schemaVersion.Some? && p.requestKey.Some? && p.runId.Some? && p.datasetVersion.Some?
       && p.cutoffDate.Some? && p.producer.Some? && p.createdAt.Some?
       && (kind in {IntentResolution, QueryContract, LogicalQueryPlan} ==>
             ObjectId(kind, p).Some? && HasText(ObjectId(kind, p).value))
  }

  lemma {:induction false} DeriveSucceeds(kind: Kind, model: Option<string>, prompt: Option<string>, text: PayloadText)
    ensures Derive(kind, model, prompt, text).Success? <==> HasMetadata(kind, text)
  {
    hide HasText;
  }

  /** Every importance is known, no subtask is named twice, and none is taken in the run. */
  ghost predicate SubtasksFit(subtasks: map<(string, string), string>, run: string, added: seq<(string, string)>) {
    && (forall i | 0 <= i < |added| :: added[i].1 in IMPORTANCE && (run, added[i].0) !in subtasks)
    && forall i, j | 0 <= i < j < |added| :: added[i].0 != added[j].0
  }

  lemma {:induction false} SubtasksAdd(subtasks: map<(string, string), string>, run: string,
                                       added: seq<(string, string)>)
    ensures var r := AddSubtasks(subtasks, run, added);
      && (r.Success? <==> SubtasksFit(subtasks, run, added))
      && (r.Success? ==>
            && (forall k :: k in r.value <==> k in subtasks || exists i :: 0 <= i < |added| && k == (run, added[i].0))
            && (forall k | k in subtasks :: r.value[k] == subtasks[k])
            && forall i | 0 <= i < |added| :: r.value[(run, added[i].0)] == added[i].1)
  {
    if added != [] {
      var front, last := added[..|added| - 1], added[|added| - 1];
      SubtasksAdd(subtasks, run, front);
      assert added == front + [last];
      if AddSubtasks(subtasks, run, front).Success? && last.1 in IMPORTANCE {
        LastSubtaskFits(subtasks, run, front, last);
      }
    }
  }

  lemma {:induction false} LastSubtaskFits(subtasks: map<(string, string), string>, run: string,
                                           front: seq<(string, string)>, last: (string, string))
    requires SubtasksFit(subtasks, run, front) && last.1 in IMPORTANCE
    ensures SubtasksFit(subtasks, run, front + [last])
       <==> (run, last.0) !in subtasks && forall i | 0 <= i < |front| :: (run, last.0) != (run, front[i].0)
  {
    var all := front + [last];
    assert all[|front|] == last;
    assert forall i | 0 <= i < |front| :: all[i] == front[i];
  }

  /** The very artifact is there already, with the same model and prompt. */
  ghost predicate IsStored(s: State, a: Artifact) {
    exists i :: 0 <= i < |s.artifacts| && SameCall(s.artifacts[i], a)
  }

  predicate SameCall(a: Artifact, b: Artifact) {
    && a.scope.runId == b.scope.runId && a.kind == b.kind && a.payload == b.payload
    && a.model == b.model && a.prompt == b.prompt
  }

  /** Nothing of the same run and kind has its payload or its object id, its run exists with its scope, every
      target it refers to is known, and its subtasks fit. */
  ghost predicate IsInsertable(s: State, a: Artifact) {
    && (forall i | 0 <= i < |s.artifacts| :: !Clash(s.artifacts[i], a))
    && RunOf(s, a.scope)
    && (forall r | r in RefsOf(|s.artifacts|, a.kind, a.payload) :: TargetKnown(s, a.scope, r))
    && (a.kind == QueryPlan ==> SubtasksFit(s.subtasks, a.scope.runId, a.payload.subtasks))
  }

  /** An append succeeds exactly for a well-formed artifact that passes the table's checks and is either stored
      already or free to be inserted. */
  lemma {:induction false} AppendIsExact(steps: seq<Step>, kind: Kind, model: Option<string>, prompt: Option<string>,
                                         text: PayloadText)
    ensures var s, a := After(steps), Derive(kind, model, prompt, text);
      Append(s, kind, model, prompt, text).Success?
      <==> HasMetadata(kind, text) && PassesChecks(a.value) && (IsStored(s, a.value) || IsInsertable(s, a.value))
  {
    DeriveSucceeds(kind, model, prompt, text);
    var s := After(steps);
    AlwaysSound(steps);
    hide After, PassesChecks, RefsOf, Clash, AddSubtasks, SubtasksFit, HasMetadata, TargetKnown;
    if HasMetadata(kind, text) && PassesChecks(Derive(kind, model, prompt, text).value) {
      var a := Derive(kind, model, prompt, text).value;
      if i :| 0 <= i < |s.artifacts| && Clash(s.artifacts[i], a) {
        ConflictIsExact(steps, kind, model, prompt, text, i);
        StoredIsTheClash(s, a, i);
      } else {
        SubtasksAdd(s.subtasks, a.scope.runId, a.payload.subtasks);
        StoredClashes(s, a);
      }
    }
  }

  lemma {:induction false} StoredClashes(s: State, a: Artifact)
    ensures IsStored(s, a) ==> exists i :: 0 <= i < |s.artifacts| && Clash(s.artifacts[i], a)
  {}

  lemma {:induction false} OneOfBoth(s: State, i: nat, j: nat)
    requires Sound(s) && i < |s.artifacts| && j < |s.artifacts|
    requires Clash(s.artifacts[i], s.artifacts[j]) && Clash(s.artifacts[j], s.artifacts[i])
    ensures i == j
  {
    hide RefsExact, IsDerived, Clash;
  }

  lemma {:induction false} StoredIsTheClash(s: State, a: Artifact, i: nat)
    requires Sound(s) && i < |s.artifacts| && Clash(s.artifacts[i], a) && IsDerived(a)
    ensures IsStored(s, a)
       <==> s.artifacts[i].payload == a.payload && s.artifacts[i].model == a.model && s.artifacts[i].prompt == a.prompt
  {
    hide RefsExact, Derive;
    if IsStored(s, a) {
      var k :| 0 <= k < |s.artifacts| && SameCall(s.artifacts[k], a);
      SameObject(s, a, k);
      OneOfBoth(s, i, k);
    }
  }

  /** Derived artifacts of one kind with one payload have one object id. */
  lemma {:induction false} SameObject(s: State, a: Artifact, k: nat)
    requires Sound(s) && IsDerived(a) && k < |s.artifacts|
    requires s.artifacts[k].kind == a.kind && s.artifacts[k].payload == a.payload
    ensures s.artifacts[k].objectId == a.objectId && s.artifacts[k].scope == a.scope
  {
    SoundDerived(s, k);
    hide Sound;
  }

  // ----- starting -----

  /** A start succeeds exactly when the run is there already with every field the same, or is new, names the active
      dataset with its cutoff, carries a hash as its request key, and has up to 55 seconds to go; a new run is
      added as it is, and a run that is there stays as it is. */
  lemma {:induction false} StartIsExact(s: State, run: Run, active: Option<(string, string)>)
    requires run.ending.None?
    ensures var id, r := run.scope.runId, Start(s, run, active);
      && (r.Success?
          <==> if id in s.runs then s.runs[id].(ending := None) == run
               else && active == Some((run.scope.datasetVersion, run.scope.cutoffDate))
                    && IsHash(run.scope.requestKey) && 0 < run.deadlineAt - run.createdAt <= 55)
      && (r.Success? ==>
            && r.value.0.runs.Keys == s.runs.Keys + {id} && r.value.0 == s.(runs := r.value.0.runs)
            && (forall other | other in s.runs :: r.value.0.runs[other] == s.runs[other])
            && (id !in s.runs ==> r.value.0.runs[id] == run) && r.value.1 == r.value.0.runs[id])
  {
    hide IsHash;
    var id, r := run.scope.runId, Start(s, run, active);
    if r.Success? && id !in s.runs {
      assert r.value.0.runs == s.runs[id := run];
    }
  }

  // ----- finishing -----

  /** A completed call: a passing verdict, a known disposition, no failure, and a passing report of the run with
      the id that the call names and the disposition that it asks for. A null outcome passes for a completed one. */
  ghost predicate Completes(s: State, run: string, f: Finish) {
    && f.httpStatus == 200 && f.outcome in {None, Some("completed"), Some("completed_with_failures")}
    && f.verification == Some("pass") && f.failureCode.None? && f.report.Some?
    && f.disposition.Some? && f.disposition.value in DISPOSITIONS
    && exists i: nat :: i < |s.artifacts| && s.artifacts[i].objectId == f.report
                        && IsPassingReport(s, run, Some(i), f.disposition)
  }

  /** A failed call: a server error with a failure code that is not all spaces, and nothing else. */
  predicate Fails(f: Finish) {
    && 500 <= f.httpStatus <= 599 && f.outcome == Some("failed")
    && f.verification.None? && f.disposition.None? && f.report.None?
    && f.failureCode.Some? && exists i :: 0 <= i < |f.failureCode.value| && f.failureCode.value[i] != ' '
  }

  /** A run that has not ended is ended exactly by a call that completes or fails it, not before it was created;
      only its own row changes, and it holds what the call passed. */
  lemma {:induction false} FinishIsExact(steps: seq<Step>, run: string, f: Finish)
    requires run in After(steps).runs && After(steps).runs[run].ending.None?
    ensures var s, r := After(steps), FinishRun(After(steps), run, f);
      && (r.Success? <==> (Completes(s, run, f) || Fails(f)) && s.runs[run].createdAt <= f.finishedAt)
      && (r.Success? ==>
            && r.value.1 == s.runs[run].(ending := r.value.1.ending) && r.value.1.ending.Some?
            && r.value.0 == s.(runs := s.runs[run := r.value.1])
            && var e := r.value.1.ending.value;
               && e.outcome == f.outcome && e.verification == f.verification && e.disposition == f.disposition
               && e.httpStatus == f.httpStatus && e.failureCode == f.failureCode && e.finishedAt == f.finishedAt
               && (e.report.Some? <==> f.report.Some?)
               && (f.report.Some? ==> e.report.value < |s.artifacts|
                                      && s.artifacts[e.report.value].objectId == f.report
                                      && IsPassingReport(s, run, e.report, f.disposition)))
  {
    var s := After(steps);
    AlwaysSound(steps);
    hide After;
    if FinishRun(s, run, f).Success? {
      FinishIsSound(s, run, f);
    }
    ReportDecides(s, run, f);
    hide Sound, FinalReport, Fails, Completes;
  }

  lemma {:induction false} ReportDecides(s: State, run: string, f: Finish)
    requires Sound(s)
    ensures FinalReport(s, run, f).Success? && (f.disposition.Some? ==> f.disposition.value in DISPOSITIONS)
       <==> Completes(s, run, f) || Fails(f)
  {
    if f.httpStatus == 200 && f.report.Some? {
      var found := FindReport(s.artifacts, run, f.report.value, 0);
      if Completes(s, run, f) {
        var i: nat :| i < |s.artifacts| && s.artifacts[i].objectId == f.report
                      && IsPassingReport(s, run, Some(i), f.disposition);
        OneReport(s, i, found.value);
      }
      if found.Some? {
        assert s.artifacts[found.value].objectId == f.report;
      }
    }
  }

  /** A run has one report with a given id. */
  lemma {:induction false} OneReport(s: State, i: nat, j: nat)
    requires Sound(s) && i < |s.artifacts| && j < |s.artifacts|
    requires s.artifacts[i].scope.runId == s.artifacts[j].scope.runId && s.artifacts[i].kind == s.artifacts[j].kind
    requires s.artifacts[i].objectId.Some? && s.artifacts[i].objectId == s.artifacts[j].objectId
    ensures i == j
  {
    OneOfBoth(s, i, j);
  }

  // ----- caching -----

  /** The answer binds, the plan lays out and the report releases the same claims, each once. */
  ghost predicate SameClaimSets(report: Payload, plan: Payload, answer: Payload) {
    && multiset(report.releaseableClaimIds) == multiset(Slots(plan.blocks)) == multiset(Claims(answer))
    && NoDuplicates(Slots(plan.blocks))
  }

  /** Report, plan and answer share one disposition, and the plan names the report. */
  ghost predicate IsOneChain(report: Artifact, plan: Artifact, answer: Artifact) {
    && Get(plan.payload, "verification_report_id") == report.objectId
    && Get(report.payload, "recommended_answer_disposition") == Get(plan.payload, "answer_disposition")
       == Get(answer.payload, "answer_disposition")
  }

  /** A report, a plan and an answer of one run and scope; the report has passed or carries no status; they form
      one chain over the same claims, and the answer carries the hash of its response. */
  ghost predicate IsReleasable(s: State, run: string, v: nat, p: nat, r: nat) {
    && v < |s.artifacts| && p < |s.artifacts| && r < |s.artifacts|
    && var report, plan, answer := s.artifacts[v], s.artifacts[p], s.artifacts[r];
       && report.kind == VerificationReport && plan.kind == AnswerPlan && answer.kind == ReleasedAnswer
       && report.scope == plan.scope == answer.scope && answer.scope.runId == run
       && Get(report.payload, "verification_status") in {None, Some("pass")}
       && IsOneChain(report, plan, answer) && SameClaimSets(report.payload, plan.payload, answer.payload)
       && Get(answer.payload, "response_hash").Some? && IsHash(Get(answer.payload, "response_hash").value)
  }

  lemma {:induction false} ClaimSetsExactly(report: Payload, plan: Payload, answer: Payload)
    ensures ClaimSetsAgree(report, plan, answer) <==> SameClaimSets(report, plan, answer)
  {
    hide Slots, Claims, NoDuplicates, Sorted, Members;
    SortedAgree(report.releaseableClaimIds, Slots(plan.blocks));
    SortedAgree(report.releaseableClaimIds, Claims(answer));
    MembersCount(Slots(plan.blocks));
  }

  function ResponseHash(p: Payload): string {
    if "response_hash" in p.texts then p.texts["response_hash"] else ""
  }

  lemma {:induction false} GateExactly(report: Artifact, plan: Artifact, answer: Artifact)
    ensures GateAgrees(report, plan, answer)
       <==> Get(report.payload, "verification_status") in {None, Some("pass")} && IsOneChain(report, plan, answer)
  {}

  lemma {:induction false} ReleaseRowExactly(s: State, run: string, v: nat, p: nat, r: nat)
    ensures ReleaseRow(s, run, v, p, r).Success? <==> IsReleasable(s, run, v, p, r)
    ensures IsReleasable(s, run, v, p, r) ==>
              r < |s.artifacts| &&
              var answer := s.artifacts[r];
              ReleaseRow(s, run, v, p, r).value ==
                CacheRow(answer.scope, v, p, r, ResponseHash(answer.payload))
  {
    if v < |s.artifacts| && p < |s.artifacts| && r < |s.artifacts| {
      ClaimSetsExactly(s.artifacts[v].payload, s.artifacts[p].payload, s.artifacts[r].payload);
      GateExactly(s.artifacts[v], s.artifacts[p], s.artifacts[r]);
    }
    hide ClaimSetsAgree, SameClaimSets, IsHash, GateAgrees, IsOneChain;
  }

  /** The key and the answer are both free, or the key holds this very release. */
  ghost predicate HasRoom(s: State, key: (string, string, string), v: nat, p: nat, r: nat) {
    if key in s.cache then
      s.cache[key].verification == v && s.cache[key].answerPlan == p && s.cache[key].released == r
    else forall k | k in s.cache :: s.cache[k].released != r
  }

  /** A release is cached exactly when it is releasable and its key and answer are free, or when it is there
      already; a new one is stored under its own request key, dataset and schema version, and nothing else
      changes. */
  lemma {:induction false} ReleaseIsExact(steps: seq<Step>, run: string, v: nat, p: nat, r: nat)
    ensures var s := After(steps);
      CacheRelease(s, run, v, p, r).Success?
      <==> && IsReleasable(s, run, v, p, r)
           && var scope := s.artifacts[r].scope;
              HasRoom(s, CacheKey(scope), v, p, r) && (CacheKey(scope) !in s.cache ==> RunOf(s, scope))
    ensures var s := After(steps);
      CacheRelease(s, run, v, p, r).Success? ==>
        && r < |s.artifacts|
        && var answer := s.artifacts[r];
           var key := (answer.scope.requestKey, answer.scope.datasetVersion, answer.scope.schemaVersion);
           CacheRelease(s, run, v, p, r).value ==
             (if key in s.cache then s
              else s.(cache := s.cache[key := CacheRow(answer.scope, v, p, r, ResponseHash(answer.payload))]), r)
  {
    var s := After(steps);
    AlwaysOutcomesSound(steps);
    ReleaseRowExactly(s, run, v, p, r);
    hide After, Sound, OutcomesSound, ReleaseRow, IsReleasable, RunOf;
    if IsReleasable(s, run, v, p, r) {
      var key := CacheKey(s.artifacts[r].scope);
      if key in s.cache && HasRoom(s, key, v, p, r) {
        SameHash(s, run, key, v, p, r);
      }
    }
  }

  lemma {:induction false} SameHash(s: State, run: string, key: (string, string, string), v: nat, p: nat, r: nat)
    requires OutcomesSound(s) && key in s.cache && HasRoom(s, key, v, p, r)
    requires IsReleasable(s, run, v, p, r)
    ensures s.cache[key] == CacheRow(s.artifacts[r].scope, v, p, r, ResponseHash(s.artifacts[r].payload))
  {
    assert CacheRowSound(s, key, s.cache[key]);
    var row := s.cache[key];
    ReleaseRowExactly(s, row.scope.runId, row.verification, row.answerPlan, row.released);
    hide ReleaseRow, SameClaimSets, IsOneChain, IsHash;
  }

  /** Behind every cached answer stands one chain: its plan names its report, the three share one disposition,
      and the stored hash is the one the answer carries. */
  lemma {:induction false} CachedChainAgrees(steps: seq<Step>, key: (string, string, string))
    requires key in After(steps).cache
    ensures var s, row := After(steps), After(steps).cache[key];
      && IsReleasable(s, row.scope.runId, row.verification, row.answerPlan, row.released)
      && var report, plan, answer := s.artifacts[row.verification], s.artifacts[row.answerPlan],
                                     s.artifacts[row.released];
         && Get(plan.payload, "verification_report_id") == Get(report.payload, "verification_report_id")
         && Get(report.payload, "recommended_answer_disposition") == Get(plan.payload, "answer_disposition")
            == Get(answer.payload, "answer_disposition")
         && Get(answer.payload, "response_hash") == Some(row.responseHash)
         && GetCached(s, key) == Some(answer.payload)
  {
    AlwaysOutcomesSound(steps);
    hide After, Sound, OutcomesSound, IsReleasable, GetCached;
    CachedIsReleasable(After(steps), key);
  }

  lemma {:induction false} CachedIsReleasable(s: State, key: (string, string, string))
    requires Sound(s) && OutcomesSound(s) && key in s.cache
    ensures var row := s.cache[key];
      && IsReleasable(s, row.scope.runId, row.verification, row.answerPlan, row.released)
      && row.verification < |s.artifacts| && row.answerPlan < |s.artifacts| && row.released < |s.artifacts|
      && var report, plan, answer := s.artifacts[row.verification], s.artifacts[row.answerPlan],
                                     s.artifacts[row.released];
         && Get(plan.payload, "verification_report_id") == Get(report.payload, "verification_report_id")
         && Get(report.payload, "recommended_answer_disposition") == Get(plan.payload, "answer_disposition")
            == Get(answer.payload, "answer_disposition")
         && Get(answer.payload, "response_hash") == Some(row.responseHash)
         && GetCached(s, key) == Some(answer.payload)
  {
    var row := s.cache[key];
    assert CacheRowSound(s, key, row);
    hide OutcomesSound, SameClaimSets, IsHash;
    ReleaseRowExactly(s, row.scope.runId, row.verification, row.answerPlan, row.released);
    hide ReleaseRow;
    ReportId(s, row.verification);
    hide Sound;
  }

  lemma {:induction false} ReportId(s: State, v: nat)
    requires Sound(s)
    ensures v < |s.artifacts| && s.artifacts[v].kind == VerificationReport ==>
              s.artifacts[v].objectId == Get(s.artifacts[v].payload, "verification_report_id")
  {
    if v < |s.artifacts| {
      SoundDerived(s, v);
    }
    hide Sound;
  }
}
