/** The request functions at work on mutable tables, each proved to do what the ledger's model says. */
module RequestDatabase {
  import opened Hashes
  import opened RequestLedger
  import opened Wrappers

  /** A row that cannot be inserted decides, whatever rows come after it. */
  lemma {:induction false} FirstBadRow(subtasks: map<(string, string), string>, run: string,
                                       added: seq<(string, string)>, k: nat)
    requires k <= |added| && AddSubtasks(subtasks, run, added[..k]).Failure?
    ensures AddSubtasks(subtasks, run, added) == AddSubtasks(subtasks, run, added[..k])
  {
    if k == |added| {
      assert added[..k] == added;
    } else {
      assert added[..|added| - 1][..k] == added[..k];
      FirstBadRow(subtasks, run, added[..|added| - 1], k);
    }
  }

  class Database {
    var evidence: set<(string, string)>
    var calculations: set<(string, string, string)>
    var claims: set<(string, string, string)>
    var runs: map<string, Run>
    var subtasks: map<(string, string), string>
    var artifacts: seq<Artifact>
    var refs: set<Ref>
    var cache: map<(string, string, string), CacheRow>

    function Now(): State
      reads this
    {
      State(evidence, calculations, claims, runs, subtasks, artifacts, refs, cache)
    }

    constructor ()
      ensures Now() == EMPTY
    {
      evidence, calculations, claims, runs, subtasks := {}, {}, {}, map[], map[];
      artifacts, refs, cache := [], {}, map[];
    }

    method StartRequestRun(run: Run, active: Option<(string, string)>) returns (result: Result<Run, Error>)
      requires run.ending.None?
      modifies this
      ensures Now() == Next(old(Now()), StartStep(run, active))
      ensures result == if Start(old(Now()), run, active).Failure? then Failure(Start(old(Now()), run, active).error)
                        else Success(Start(old(Now()), run, active).value.1)
    {
      var id := run.scope.runId;
      if id in runs {
        var existing := runs[id];
        if existing.scope == run.scope && existing.questionId == run.questionId && existing.question == run.question
           && existing.createdAt == run.createdAt && existing.deadlineAt == run.deadlineAt {
          return Success(existing);
        }
        return Failure(RequestRunConflict);
      }
      if active != Some((run.scope.datasetVersion, run.scope.cutoffDate)) {
        return Failure(ActiveDatasetMismatch);
      }
      if !IsHash(run.scope.requestKey) || run.deadlineAt <= run.createdAt
          || run.createdAt + MAX_SECONDS < run.deadlineAt {
        return Failure(CheckViolation);
      }
      runs := runs[id := run];
      result := Success(run);
    }

    /** Inserts a plan's subtasks row by row; the first bad row undoes them all. */
    method InsertSubtasks(run: string, added: seq<(string, string)>) returns (error: Option<Error>)
      modifies this`subtasks
      ensures var all := AddSubtasks(old(subtasks), run, added);
              if all.Success? then error.None? && subtasks == all.value
              else error == Some(all.error) && subtasks == old(subtasks)
    {
      var before := subtasks;
      for k := 0 to |added|
        invariant AddSubtasks(before, run, added[..k]) == Success(subtasks)
      {
        var (task, importance) := added[k];
        assert added[..k + 1][..k] == added[..k];
        if importance !in IMPORTANCE {
          FirstBadRow(before, run, added, k + 1);
          subtasks := before;
          return Some(CheckViolation);
        }
        if (run, task) in subtasks {
          FirstBadRow(before, run, added, k + 1);
          subtasks := before;
          return Some(ArtifactConflict);
        }
        subtasks := subtasks[(run, task) := importance];
      }
      assert added[..|added|] == added;
      error := None;
    }

    /** The artifact's row, then its references or its subtasks, by artifact type. */
    method InsertRows(a: Artifact) returns (result: Result<nat, Error>)
      modifies this
      ensures Now() == if InsertArtifact(old(Now()), a).Success? then InsertArtifact(old(Now()), a).value.0
                       else old(Now())
      ensures result == if InsertArtifact(old(Now()), a).Failure? then Failure(InsertArtifact(old(Now()), a).error)
                        else Success(InsertArtifact(old(Now()), a).value.1)
    {
      hide RefsOf, TargetKnown, AddSubtasks;
      if !RunOf(Now(), a.scope) {
        return Failure(ForeignKey);
      }
      var id := |artifacts|;
      var rows := RefsOf(id, a.kind, a.payload);
      if exists r :: r in rows && !TargetKnown(Now(), a.scope, r) {
        return Failure(ForeignKey);
      }
      if a.kind == QueryPlan {
        var error := InsertSubtasks(a.scope.runId, a.payload.subtasks);
        if error.Some? {
          return Failure(error.value);
        }
      }
      artifacts := artifacts + [a];
      refs := refs + rows;
      result := Success(id);
    }

    /** Inserts the artifact unless a unique constraint objects. */
    method AppendRequestArtifact(kind: Kind, model: Option<string>, prompt: Option<string>, text: PayloadText)
      returns (result: Result<nat, Error>)
      modifies this
      ensures Now() == Next(old(Now()), AppendStep(kind, model, prompt, text))
      ensures result == if Append(old(Now()), kind, model, prompt, text).Failure?
          then Failure(Append(old(Now()), kind, model, prompt, text).error)
                        else Success(Append(old(Now()), kind, model, prompt, text).value.1)
    {
      hide PassesChecks, Derive, InsertArtifact, SameArtifact, Clash, Start, FinishRun, CacheRelease;
      var derived := Derive(kind, model, prompt, text);
      if derived.Failure? {
        return Failure(derived.error);
      }
      var a := derived.value;
      if !PassesChecks(a) {
        return Failure(CheckViolation);
      }
      if exists i :: 0 <= i < |artifacts| && Clash(artifacts[i], a) {
        result := FindSame(kind, model, prompt, a.payload);
      } else {
        result := InsertRows(a);
      }
    }

    /** After a conflict: the artifact found, if it is the same. */
    method FindSame(kind: Kind, model: Option<string>, prompt: Option<string>, p: Payload)
        returns (result: Result<nat, Error>)
      ensures result == SameArtifact(artifacts, kind, model, prompt, p)
    {
      var found := Lookup(artifacts, kind, p, 0);
      if found.Some? {
        var a := artifacts[found.value];
        if a.payload == p && a.model == model && a.prompt == prompt {
          return Success(found.value);
        }
      }
      result := Failure(ArtifactConflict);
    }

    method FinishRequestRun(run: string, f: Finish) returns (result: Result<Run, Error>)
      modifies this
      ensures Now() == Next(old(Now()), FinishStep(run, f))
      ensures result == if FinishRun(old(Now()), run, f).Failure? then Failure(FinishRun(old(Now()), run, f).error)
                        else Success(FinishRun(old(Now()), run, f).value.1)
    {
      hide SameEnding;
      if run !in runs {
        return Failure(RequestRunNotFound);
      }
      var row := runs[run];
      if row.ending.Some? {
        return if SameEnding(Now(), run, row.ending.value, f) then Success(row) else Failure(RequestRunConflict);
      }
      var report: Option<nat> := None;
      if f.httpStatus == 200 {
        if OutsideCompleted(f.outcome) || f.verification != Some("pass") || f.disposition.None? || f.report.None?
            || f.failureCode.Some? {
          return Failure(InvalidTerminalState);
        }
        report := FindReport(artifacts, run, f.report.value, 0);
        if report.None? || Get(artifacts[report.value].payload, "verification_status") != Some("pass")
           || Get(artifacts[report.value].payload, "recommended_answer_disposition") != f.disposition {
          return Failure(FinalVerificationArtifactInvalid);
        }
      } else if 500 <= f.httpStatus <= 599 {
        if f.outcome != Some("failed") || f.verification.Some? || f.disposition.Some? || f.report.Some?
           || f.failureCode.None? || OnlySpaces(f.failureCode.value) {
          return Failure(InvalidTerminalState);
        }
      } else {
        return Failure(InvalidTerminalState);
      }
      if f.finishedAt < row.createdAt || (f.disposition.Some? && f.disposition.value !in DISPOSITIONS) {
        return Failure(CheckViolation);
      }
      row := row.(ending := Some(Ending(f.outcome, f.verification, f.disposition, f.httpStatus, f.failureCode,
                                        f.finishedAt, report)));
      runs := runs[run := row];
      result := Success(row);
    }

    method CacheVerifiedRelease(run: string, v: nat, p: nat, r: nat) returns (result: Result<nat, Error>)
      modifies this
      ensures Now() == Next(old(Now()), CacheStep(run, v, p, r))
      ensures result == if CacheRelease(old(Now()), run, v, p, r).Failure?
          then Failure(CacheRelease(old(Now()), run, v, p, r).error)
                        else Success(CacheRelease(old(Now()), run, v, p, r).value.1)
    {
      hide ReleaseRow, CacheKey;
      var row := ReleaseRow(Now(), run, v, p, r);
      if row.Failure? {
        return Failure(row.error);
      }
      var key := CacheKey(row.value.scope);
      if key !in cache && forall k | k in cache :: cache[k].released != r {
        if !RunOf(Now(), row.value.scope) {
          return Failure(ForeignKey);
        }
        cache := cache[key := row.value];
        return Success(r);
      }
      if key in cache {
        var existing := cache[key];
        if existing.verification == row.value.verification && existing.answerPlan == row.value.answerPlan
           && existing.released == row.value.released && existing.responseHash == row.value.responseHash {
          return Success(existing.released);
        }
      }
      result := Failure(ReleaseCacheConflict);
    }

    /** Reads the released answer cached under a key. */
    method GetCachedRelease(key: (string, string, string)) returns (payload: Option<Payload>)
      ensures payload == GetCached(Now(), key)
    {
      payload := None;
      if key in cache {
        var row := cache[key];
        if row.released < |artifacts| {
          var a := artifacts[row.released];
          if a.scope.runId == row.scope.runId && a.scope.datasetVersion == row.scope.datasetVersion {
            payload := Some(a.payload);
          }
        }
      }
    }
  }
}
