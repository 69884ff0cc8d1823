/** Request runs, their append-only artifacts with numbered references, and the cache of verified releases. */
module RequestLedger {
  import opened Collation
  import opened Flattening
  import opened Hashes
  import opened Sequences
  import opened Wrappers

  // ----- payloads -----

  datatype Check = Check(targetType: string, targetId: string, evidence: seq<string>)

  datatype ClaimBinding = ClaimBinding(claims: seq<string>, evidence: seq<string>)

  /** A JSON object: the keys that are read, missing lists read as empty, and in `rest` all that makes its
      text differ from other texts. Texts, and therefore their hashes, are equal when payloads are. */
  datatype Payload = Payload(
    schemaVersion: Option<string>, requestKey: Option<string>, runId: Option<string>,
    datasetVersion: Option<string>, cutoffDate: Option<string>, producer: Option<string>, createdAt: Option<string>,
    texts: map<string, string>,
    subtasks: seq<(string, string)>,
    evidenceRefs: seq<string>, evidenceIds: seq<string>, exclusionEvidenceIds: seq<string>,
    limitations: seq<seq<string>>, calculationIds: seq<string>, candidateClaimIds: seq<string>,
    claimChecks: seq<seq<string>>, calculationChecks: seq<Check>,
    releaseableClaimIds: seq<string>, rejectedClaims: seq<string>,
    blocks: seq<Block>, claimBindings: seq<ClaimBinding>,
    rest: string)

  datatype PayloadText = Malformed(text: string) | Json(payload: Payload)

  /** The value under a text key, if the payload has it. */
  function Get(p: Payload, key: string): Option<string> {
    if key in p.texts then Some(p.texts[key]) else None
  }

  // ----- rows -----

  datatype Scope = Scope(runId: string, requestKey: string, datasetVersion: string, cutoffDate: string,
                         schemaVersion: string)

  datatype Kind =
    | RequestContext | IntentResolution | QueryPlan | QueryContract | LogicalQueryPlan | ExecutionGraph
    | ToolResult | EvidenceBundle | VerificationReport | AnswerPlan | ReleasedAnswer
    | OtherKind(name: string)

  datatype Artifact = Artifact(kind: Kind, model: Option<string>, prompt: Option<string>, payload: Payload,
                               scope: Scope, objectId: Option<string>)

  datatype Table = Evidence | Calculation | Claim

  /** What a reference means to its artifact. */
  datatype Role =
    | InResult | Included | Excluded | InLimitation | Candidate | InClaimCheck | InCalculationCheck | Checked
    | Releaseable | Rejected | InPlan | Bound

  /** A row of one of the three reference tables; artifacts are named by their position. */
  datatype Ref = Ref(artifact: nat, table: Table, role: Role, ordinal: nat, target: string)

  /** How a run ended; absent values are nulls. */
  datatype Ending = Ending(outcome: Option<string>, verification: Option<string>, disposition: Option<string>,
                           httpStatus: int, failureCode: Option<string>, finishedAt: int, report: Option<nat>)

  datatype Run = Run(scope: Scope, questionId: string, question: string, createdAt: int, deadlineAt: int,
                     ending: Option<Ending>)

  datatype CacheRow = CacheRow(scope: Scope, verification: nat, answerPlan: nat, released: nat, responseHash: string)

  datatype State = State(
    evidence: set<(string, string)>, calculations: set<(string, string, string)>, claims: set<(string, string, string)>,
    runs: map<string, Run>, subtasks: map<(string, string), string>,
    artifacts: seq<Artifact>, refs: set<Ref>,
    cache: map<(string, string, string), CacheRow>)

  const EMPTY := State({}, {}, {}, map[], map[], [], {}, map[])

  datatype Error =
    | PayloadInvalid | IntentResolutionIdRequired | SemanticQueryObjectIdRequired | MetadataInvalid
    | CheckViolation | ForeignKey | ArtifactConflict
    | RequestRunConflict | ActiveDatasetMismatch | RequestRunNotFound | InvalidTerminalState
    | FinalVerificationArtifactInvalid
    | ReleaseArtifactNotFound | ReleaseScopeMismatch | ReleaseGateMismatch | ReleaseClaimSetMismatch
    | ReleaseResponseHashInvalid | ReleaseCacheConflict

  // ----- deriving an artifact from its payload -----

  /** A character class test: some character is not a space. */
  predicate HasText(s: string) {
    exists i :: 0 <= i < |s| && s[i] !in " \t\n\r\U{000B}\U{000C}"
  }

  function ObjectId(kind: Kind, p: Payload): Option<string> {
    match kind
    case IntentResolution => Get(p, "resolution_id")
    case _ => CandidateId(kind, p)
  }

  /** The id by which a conflicting artifact is looked up; intent resolutions are not looked up by theirs. */
  function CandidateId(kind: Kind, p: Payload): Option<string> {
    match kind
    case QueryContract => Get(p, "query_contract_id")
    case LogicalQueryPlan => Get(p, "logical_plan_id")
    case ExecutionGraph => Get(p, "graph_id")
    case ToolResult => Get(p, "task_id")
    case EvidenceBundle => Get(p, "bundle_id")
    case VerificationReport => Get(p, "verification_report_id")
    case _ => None
  }

  function Derive(kind: Kind, model: Option<string>, prompt: Option<string>,
                  text: PayloadText): Result<Artifact, Error> {
    if text.Malformed? then Failure(PayloadInvalid)
    else
      var p := text.payload;
      var id := ObjectId(kind, p);
      var named := id.Some? && HasText(id.value);
      if kind == IntentResolution && !named then Failure(IntentResolutionIdRequired)
      else if (kind == QueryContract || kind == LogicalQueryPlan) && !named then Failure(SemanticQueryObjectIdRequired)
      else if p.schemaVersion.None? || p.requestKey.None? || p.runId.None? || p.datasetVersion.None?
              || p.cutoffDate.None? || p.producer.None? || p.createdAt.None? then Failure(MetadataInvalid)
      else
        var scope := Scope(p.runId.value, p.requestKey.value, p.datasetVersion.value, p.cutoffDate.value,
                           p.schemaVersion.value);
        Success(Artifact(kind, model, prompt, p, scope, id))
  }

  /** The table's check constraints. */
  predicate PassesChecks(a: Artifact) {
    && !a.kind.OtherKind? && IsHash(a.scope.requestKey)
    && (a.model.None? <==> a.prompt.None?)
    && (a.model.Some? && a.prompt.Some? ==> HasText(a.model.value) && HasText(a.prompt.value))
    && (a.kind == IntentResolution ==> a.model.Some?)
    && (a.kind != IntentResolution && a.kind != AnswerPlan ==> a.model.None?)
  }

  // ----- references -----

  function Numbered(a: nat, table: Table, role: Role, values: seq<string>): set<Ref> {
    set i | 0 <= i < |values| :: Ref(a, table, role, i, values[i])
  }

  /** The calculation checks keep the positions they have among all checks. */
  function CheckedRefs(a: nat, checks: seq<Check>): set<Ref> {
    set i | 0 <= i < |checks| && checks[i].targetType == "calculation" ::
        Ref(a, Calculation, Checked, i, checks[i].targetId)
  }

  function CheckEvidence(checks: seq<Check>): seq<seq<string>> {
    if checks == [] then [] else CheckEvidence(checks[..|checks| - 1]) + [checks[|checks| - 1].evidence]
  }

  function BoundClaims(bindings: seq<ClaimBinding>): seq<seq<string>> {
    if bindings == [] then [] else BoundClaims(bindings[..|bindings| - 1]) + [bindings[|bindings| - 1].claims]
  }

  function BoundEvidence(bindings: seq<ClaimBinding>): seq<seq<string>> {
    if bindings == [] then [] else BoundEvidence(bindings[..|bindings| - 1]) + [bindings[|bindings| - 1].evidence]
  }

  /** All reference rows of artifact number `a`. */
  function RefsOf(a: nat, kind: Kind, p: Payload): set<Ref> {
    match kind
    case ToolResult =>
      Numbered(a, Evidence, InResult, p.evidenceRefs)
    case EvidenceBundle =>
      Numbered(a, Evidence, Included, p.evidenceIds)
      + Numbered(a, Evidence, Excluded, p.exclusionEvidenceIds)
      + Numbered(a, Evidence, InLimitation, ByRowNumber(ListRows(p.limitations)))
      + Numbered(a, Calculation, Included, p.calculationIds)
      + Numbered(a, Claim, Candidate, p.candidateClaimIds)
    case VerificationReport =>
      Numbered(a, Evidence, InClaimCheck, ByRowNumber(ListRows(p.claimChecks)))
      + Numbered(a, Evidence, InCalculationCheck, ByRowNumber(ListRows(CheckEvidence(p.calculationChecks))))
      + CheckedRefs(a, p.calculationChecks)
      + Numbered(a, Claim, Releaseable, p.releaseableClaimIds)
      + Numbered(a, Claim, Rejected, p.rejectedClaims)
    case AnswerPlan =>
      Numbered(a, Claim, InPlan, ByRowNumber(SlotRows(p.blocks) + CellRows(p.blocks)))
    case ReleasedAnswer =>
      Numbered(a, Claim, Bound, ByRowNumber(ListRows(BoundClaims(p.claimBindings))))
      + Numbered(a, Evidence, Bound, ByRowNumber(ListRows(BoundEvidence(p.claimBindings))))
    case _ => {}
  }

  /** The referenced row exists, in the artifact's dataset or run. */
  predicate TargetKnown(s: State, scope: Scope, r: Ref) {
    match r.table
    case Evidence => (scope.datasetVersion, r.target) in s.evidence
    case Calculation => (scope.runId, scope.datasetVersion, r.target) in s.calculations
    case Claim => (scope.runId, scope.datasetVersion, r.target) in s.claims
  }

  const IMPORTANCE := {"critical", "required_independent", "optional"}

  /** Inserting a query plan's subtasks, row by row. */
  function AddSubtasks(subtasks: map<(string, string), string>, run: string,
                       added: seq<(string, string)>): Result<map<(string, string), string>, Error> {
    if added == [] then Success(subtasks)
    else
      var before := AddSubtasks(subtasks, run, added[..|added| - 1]);
      var last := added[|added| - 1];
      if before.Failure? then before
      else if last.1 !in IMPORTANCE then Failure(CheckViolation)
      else if (run, last.0) in before.value then Failure(ArtifactConflict)
      else Success(before.value[(run, last.0) := last.1])
  }

  // ----- appending -----

  /** Two artifacts that the unique constraints keep apart. */
  predicate Clash(a: Artifact, b: Artifact) {
    && a.scope.runId == b.scope.runId && a.kind == b.kind
    && (a.payload == b.payload || (a.objectId.Some? && a.objectId == b.objectId))
  }

  /** What the lookup after a conflict looks for. */
  predicate Matches(a: Artifact, kind: Kind, p: Payload) {
    && Some(a.scope.runId) == p.runId && a.kind == kind
    && (a.payload == p || (CandidateId(kind, p).Some? && a.objectId == CandidateId(kind, p)))
  }

  function Lookup(artifacts: seq<Artifact>, kind: Kind, p: Payload, i: nat): (r: Option<nat>)
    requires i <= |artifacts|
    ensures r.Some? ==> i <= r.value < |artifacts| && Matches(artifacts[r.value], kind, p)
    ensures r.None? ==> forall k | i <= k < |artifacts| :: !Matches(artifacts[k], kind, p)
    decreases |artifacts| - i
  {
    if i == |artifacts| then None
    else if Matches(artifacts[i], kind, p) then Some(i)
    else Lookup(artifacts, kind, p, i + 1)
  }

  /** After a conflict: the artifact that the lookup finds, if it has the same payload, model and prompt. */
  function SameArtifact(artifacts: seq<Artifact>, kind: Kind, model: Option<string>, prompt: Option<string>,
                        p: Payload): Result<nat, Error> {
    var found := Lookup(artifacts, kind, p, 0);
    if found.Some? && artifacts[found.value].payload == p && artifacts[found.value].model == model
        && artifacts[found.value].prompt == prompt
    then Success(found.value)
    else Failure(ArtifactConflict)
  }

  predicate RunOf(s: State, scope: Scope) {
    scope.runId in s.runs && s.runs[scope.runId].scope == scope
  }

  /** The rows of a new artifact, its references and its subtasks, or the error that undoes them all. */
  function InsertArtifact(s: State, a: Artifact): Result<(State, nat), Error> {
    var n := |s.artifacts|;
    var refs := RefsOf(n, a.kind, a.payload);
    if !RunOf(s, a.scope) then Failure(ForeignKey)
    else if exists r :: r in refs && !TargetKnown(s, a.scope, r) then Failure(ForeignKey)
    else
      var subtasks := if a.kind == QueryPlan then AddSubtasks(s.subtasks, a.scope.runId, a.payload.subtasks)
                      else Success(s.subtasks);
      if subtasks.Failure? then Failure(subtasks.error)
      else Success((s.(artifacts := s.artifacts + [a], refs := s.refs + refs, subtasks := subtasks.value), n))
  }

  function Append(s: State, kind: Kind, model: Option<string>, prompt: Option<string>,
                  text: PayloadText): Result<(State, nat), Error> {
    var derived := Derive(kind, model, prompt, text);
    if derived.Failure? then Failure(derived.error)
    else
      var a := derived.value;
      if !PassesChecks(a) then Failure(CheckViolation)
      else if exists i :: 0 <= i < |s.artifacts| && Clash(s.artifacts[i], a) then
        var same := SameArtifact(s.artifacts, kind, model, prompt, a.payload);
        if same.Success? then Success((s, same.value)) else Failure(same.error)
      else InsertArtifact(s, a)
  }

  // ----- starting and finishing a run -----

  const MAX_SECONDS := 55

  /** Starting a run; `active` is the active dataset with its cutoff. The same call again finds its row. */
  function Start(s: State, run: Run, active: Option<(string, string)>): Result<(State, Run), Error>
    requires run.ending.None?
  {
    var id := run.scope.runId;
    if id in s.runs then
      if s.runs[id].(ending := None) == run then Success((s, s.runs[id])) else Failure(RequestRunConflict)
    else if active != Some((run.scope.datasetVersion, run.scope.cutoffDate)) then Failure(ActiveDatasetMismatch)
    else if !IsHash(run.scope.requestKey) || !(run.createdAt < run.deadlineAt <= run.createdAt + MAX_SECONDS)
    then Failure(CheckViolation)
    else Success((s.(runs := s.runs[id := run]), run))
  }

  predicate OnlySpaces(s: string) {
    forall i | 0 <= i < |s| :: s[i] == ' '
  }

  /** The verification report with the given id in the given run. */
  function FindReport(artifacts: seq<Artifact>, run: string, report: string, i: nat): (r: Option<nat>)
    requires i <= |artifacts|
    ensures r.Some? ==> i <= r.value < |artifacts|
                        && artifacts[r.value].scope.runId == run && artifacts[r.value].kind == VerificationReport
                        && artifacts[r.value].objectId == Some(report)
    ensures r.None? ==> forall k | i <= k < |artifacts| :: !(artifacts[k].scope.runId == run
                                                             && artifacts[k].kind == VerificationReport
                                                                && artifacts[k].objectId == Some(report))
    decreases |artifacts| - i
  {
    if i == |artifacts| then None
    else if artifacts[i].scope.runId == run && artifacts[i].kind == VerificationReport
        && artifacts[i].objectId == Some(report) then Some(i)
    else FindReport(artifacts, run, report, i + 1)
  }

  /** The arguments of a call that finishes a run. The outcome may be null, as any text argument may. */
  datatype Finish = Finish(outcome: Option<string>, verification: Option<string>, disposition: Option<string>,
                           httpStatus: int, report: Option<string>, failureCode: Option<string>, finishedAt: int)

  const DISPOSITIONS := {"answer", "partial", "limitation", "abstain"}

  /** A NOT IN test: a null outcome is not found to be outside the list. */
  predicate OutsideCompleted(outcome: Option<string>) {
    outcome.Some? && outcome.value != "completed" && outcome.value != "completed_with_failures"
  }

  /** The stored ending is the one that the call asks for; a null outcome equals nothing. */
  predicate SameEnding(s: State, run: string, e: Ending, f: Finish) {
    && e.outcome.Some? && e.outcome == f.outcome
    && e.verification == f.verification && e.disposition == f.disposition
    && e.httpStatus == f.httpStatus && e.failureCode == f.failureCode && e.finishedAt == f.finishedAt
    && ((f.report.None? && e.report.None?)
        || (f.report.Some? && e.report.Some? && e.report.value < |s.artifacts|
            && s.artifacts[e.report.value].scope.runId == run
            && s.artifacts[e.report.value].kind == VerificationReport
            && s.artifacts[e.report.value].objectId == f.report))
  }

  /** The report that a call with status 200 must name, or the error that stops the call. */
  function FinalReport(s: State, run: string, f: Finish): Result<Option<nat>, Error> {
    if f.httpStatus == 200 then
      if OutsideCompleted(f.outcome) || f.verification != Some("pass") || f.disposition.None? || f.report.None?
          || f.failureCode.Some?
      then Failure(InvalidTerminalState)
      else
        var found := FindReport(s.artifacts, run, f.report.value, 0);
        if found.None? || Get(s.artifacts[found.value].payload, "verification_status") != Some("pass")
           || Get(s.artifacts[found.value].payload, "recommended_answer_disposition") != f.disposition
        then Failure(FinalVerificationArtifactInvalid)
        else Success(found)
    else if 500 <= f.httpStatus <= 599 then
      if f.outcome != Some("failed") || f.verification.Some? || f.disposition.Some? || f.report.Some?
         || f.failureCode.None? || OnlySpaces(f.failureCode.value)
      then Failure(InvalidTerminalState)
      else Success(None)
    else Failure(InvalidTerminalState)
  }

  function FinishRun(s: State, run: string, f: Finish): Result<(State, Run), Error> {
    if run !in s.runs then Failure(RequestRunNotFound)
    else if s.runs[run].ending.Some? then
      if SameEnding(s, run, s.runs[run].ending.value, f) then Success((s, s.runs[run])) else Failure(RequestRunConflict)
    else
      var report := FinalReport(s, run, f);
      if report.Failure? then Failure(report.error)
      else if f.finishedAt < s.runs[run].createdAt || (f.disposition.Some? && f.disposition.value !in DISPOSITIONS)
      then Failure(CheckViolation)
      else
        var ending := Ending(f.outcome, f.verification, f.disposition, f.httpStatus, f.failureCode, f.finishedAt,
                             report.value);
        var finished := s.runs[run].(ending := Some(ending));
        Success((s.(runs := s.runs[run := finished]), finished))
  }

  // ----- the cache of verified releases -----

  function ArtifactOf(s: State, run: string, id: nat): Option<Artifact> {
    if id < |s.artifacts| && s.artifacts[id].scope.runId == run then Some(s.artifacts[id]) else None
  }

  /** A comparison by <>: a null is not found to differ. */
  predicate Differs(value: Option<string>, expected: string) {
    value.Some? && value.value != expected
  }

  function Claims(p: Payload): seq<string> {
    Concat(BoundClaims(p.claimBindings))
  }

  /** The three claim lists agree as sorted arrays, and the planned one repeats no claim. */
  predicate ClaimSetsAgree(verification: Payload, answerPlan: Payload, released: Payload) {
    && Sorted(verification.releaseableClaimIds) == Sorted(Slots(answerPlan.blocks))
    && Sorted(verification.releaseableClaimIds) == Sorted(Claims(released))
    && |Slots(answerPlan.blocks)| == |Members(Slots(answerPlan.blocks))|
  }

  predicate GateAgrees(verification: Artifact, answerPlan: Artifact, released: Artifact) {
    && !Differs(Get(verification.payload, "verification_status"), "pass")
    && Get(answerPlan.payload, "verification_report_id") == verification.objectId
    && Get(answerPlan.payload, "answer_disposition") == Get(verification.payload, "recommended_answer_disposition")
    && Get(released.payload, "answer_disposition") == Get(answerPlan.payload, "answer_disposition")
  }

  /** The row that a call would cache, or the first gate that it fails. */
  function ReleaseRow(s: State, run: string, v: nat, p: nat, r: nat): (row: Result<CacheRow, Error>)
    ensures row.Success? ==> row.value.verification == v && row.value.answerPlan == p && row.value.released == r
  {
    var verification, answerPlan, released := ArtifactOf(s, run, v), ArtifactOf(s, run, p), ArtifactOf(s, run, r);
    if verification.None? || answerPlan.None? || released.None? then Failure(ReleaseArtifactNotFound)
    else if verification.value.kind != VerificationReport || answerPlan.value.kind != AnswerPlan
        || released.value.kind != ReleasedAnswer
            || verification.value.scope != answerPlan.value.scope || verification.value.scope != released.value.scope
    then Failure(ReleaseScopeMismatch)
    else if !GateAgrees(verification.value, answerPlan.value, released.value) then Failure(ReleaseGateMismatch)
    else if !ClaimSetsAgree(verification.value.payload, answerPlan.value.payload, released.value.payload)
    then Failure(ReleaseClaimSetMismatch)
    else
      var hash := Get(released.value.payload, "response_hash");
      if hash.None? || !IsHash(hash.value) then Failure(ReleaseResponseHashInvalid)
      else Success(CacheRow(released.value.scope, v, p, r, hash.value))
  }

  function CacheKey(scope: Scope): (string, string, string) {
    (scope.requestKey, scope.datasetVersion, scope.schemaVersion)
  }

  function CacheRelease(s: State, run: string, v: nat, p: nat, r: nat): Result<(State, nat), Error> {
    var row := ReleaseRow(s, run, v, p, r);
    if row.Failure? then Failure(row.error)
    else
      var key := CacheKey(row.value.scope);
      if key !in s.cache && forall k | k in s.cache :: s.cache[k].released != r then
        if RunOf(s, row.value.scope) then Success((s.(cache := s.cache[key := row.value]), r)) else Failure(ForeignKey)
      else if key in s.cache && s.cache[key].(scope := row.value.scope) == row.value then Success((s, r))
      else Failure(ReleaseCacheConflict)
  }

  /** The payload of the released answer cached under a key. */
  function GetCached(s: State, key: (string, string, string)): Option<Payload> {
    if key in s.cache && s.cache[key].released < |s.artifacts|
       && s.artifacts[s.cache[key].released].scope.runId == s.cache[key].scope.runId
       && s.artifacts[s.cache[key].released].scope.datasetVersion == s.cache[key].scope.datasetVersion
    then Some(s.artifacts[s.cache[key].released].payload)
    else None
  }

  // ----- runs of the ledger -----

  datatype Step =
    | AddTargets(evidence: set<(string, string)>, calculations: set<(string, string, string)>,
                 claims: set<(string, string, string)>)
    | StartStep(run: Run, active: Option<(string, string)>)
    | AppendStep(kind: Kind, model: Option<string>, prompt: Option<string>, text: PayloadText)
    | FinishStep(runId: string, finish: Finish)
    | CacheStep(runId: string, verification: nat, answerPlan: nat, released: nat)

  /** A failed call leaves everything as it was. */
  function Next(s: State, step: Step): State {
    match step
    case AddTargets(evidence, calculations, claims) =>
      s.(evidence := s.evidence + evidence, calculations := s.calculations + calculations, claims := s.claims + claims)
    case StartStep(run, active) =>
      if run.ending.None? && Start(s, run, active).Success? then Start(s, run, active).value.0 else s
    case AppendStep(kind, model, prompt, text) =>
      if Append(s, kind, model, prompt, text).Success? then Append(s, kind, model, prompt, text).value.0 else s
    case FinishStep(run, finish) =>
      if FinishRun(s, run, finish).Success? then FinishRun(s, run, finish).value.0 else s
    case CacheStep(run, v, p, r) =>
      if CacheRelease(s, run, v, p, r).Success? then CacheRelease(s, run, v, p, r).value.0 else s
  }

  /** From a state through any sequence of calls. */
  function Calls(s: State, steps: seq<Step>): State {
    if steps == [] then s else Next(Calls(s, steps[..|steps| - 1]), steps[|steps| - 1])
  }

  function After(steps: seq<Step>): State {
    Calls(EMPTY, steps)
  }
}
