/** What holds of artifacts and references over every run of the ledger. */
module ArtifactProperties {
  import opened Flattening
  import opened RequestLedger
  import opened Wrappers

  // ----- the invariant -----

  ghost predicate Unique(artifacts: seq<Artifact>) {
    forall i, j | 0 <= i < j < |artifacts| :: !Clash(artifacts[i], artifacts[j])
  }

  ghost predicate IsDerived(a: Artifact) {
    Derive(a.kind, a.model, a.prompt, Json(a.payload)) == Success(a)
  }

  /** The reference tables hold exactly the references of the artifacts. */
  ghost predicate RefsExact(s: State) {
    forall r :: r in s.refs <==>
      r.artifact < |s.artifacts|
          && r in RefsOf(r.artifact, s.artifacts[r.artifact].kind, s.artifacts[r.artifact].payload)
  }

  ghost predicate Sound(s: State) {
    && Unique(s.artifacts)
    && (forall a | a in s.artifacts :: IsDerived(a))
    && RefsExact(s)
  }

  lemma {:induction false} RefsAreOwn(n: nat, kind: Kind, p: Payload)
    ensures forall r | r in RefsOf(n, kind, p) :: r.artifact == n
  {
    hide ByRowNumber, ListRows, SlotRows, CellRows;
  }

  /** An append either changes nothing or adds one artifact with its references. */
  lemma {:induction false} AppendShape(s: State, kind: Kind, model: Option<string>, prompt: Option<string>,
                                       text: PayloadText)
    requires Append(s, kind, model, prompt, text).Success?
    ensures var (after, id) := Append(s, kind, model, prompt, text).value;
      && text.Json? && id < |after.artifacts|
      && Derive(kind, model, prompt, text).Success? && PassesChecks(Derive(kind, model, prompt, text).value)
      && after.runs == s.runs && after.cache == s.cache
      && after.artifacts[id].kind == kind && after.artifacts[id].payload == text.payload
      && after.artifacts[id].model == model && after.artifacts[id].prompt == prompt
      && (|| (after == s && s.artifacts[id].payload == text.payload && s.artifacts[id].model == model
              && s.artifacts[id].prompt == prompt && Matches(s.artifacts[id], kind, text.payload))
          || (&& id == |s.artifacts|
              && after.artifacts == s.artifacts + [Derive(kind, model, prompt, text).value]
              && after.refs == s.refs + RefsOf(id, kind, text.payload)
              && forall i | 0 <= i < |s.artifacts| :: !Clash(s.artifacts[i], Derive(kind, model, prompt, text).value)))
  {
    hide PassesChecks, RefsOf, Clash, AddSubtasks, TargetKnown;
  }

  lemma {:induction false} AppendKeepsSound(s: State, kind: Kind, model: Option<string>, prompt: Option<string>,
                                            text: PayloadText)
    requires Sound(s) && Append(s, kind, model, prompt, text).Success?
    ensures Sound(Append(s, kind, model, prompt, text).value.0)
  {
    AppendShape(s, kind, model, prompt, text);
    var (after, id) := Append(s, kind, model, prompt, text).value;
    hide Append, PassesChecks, RefsOf, Clash;
    if after != s {
      var a := Derive(kind, model, prompt, text).value;
      assert IsDerived(a) && a.kind == kind && a.payload == text.payload;
      hide Derive, IsDerived;
      UniqueSnoc(s.artifacts, a);
      RefsSnoc(s, a, after);
    }
    hide Unique, RefsExact;
  }

  lemma {:induction false} UniqueSnoc(artifacts: seq<Artifact>, a: Artifact)
    requires Unique(artifacts) && forall i | 0 <= i < |artifacts| :: !Clash(artifacts[i], a)
    ensures Unique(artifacts + [a])
  {
    hide Clash;
  }

  lemma {:induction false} RefsSnoc(s: State, a: Artifact, after: State)
    requires RefsExact(s) && after.artifacts == s.artifacts + [a]
    requires after.refs == s.refs + RefsOf(|s.artifacts|, a.kind, a.payload)
    ensures RefsExact(after)
  {
    var n := |s.artifacts|;
    RefsAreOwn(n, a.kind, a.payload);
    hide RefsOf;
    forall r ensures r in after.refs <==>
                       r.artifact <= n && r in RefsOf(r.artifact, after.artifacts[r.artifact].kind,
                                                      after.artifacts[r.artifact].payload)
    {
      if r.artifact < n {
        assert after.artifacts[r.artifact] == s.artifacts[r.artifact];
      }
    }
  }

  /** Whatever is not an append leaves artifacts and references alone. */
  lemma {:induction false} OthersLeaveArtifacts(s: State, step: Step)
    requires !step.AppendStep?
    ensures Next(s, step).artifacts == s.artifacts && Next(s, step).refs == s.refs
  {
    hide FinalReport, SameEnding, ReleaseRow;
  }

  lemma {:induction false} NextKeepsSound(s: State, step: Step)
    requires Sound(s)
    ensures Sound(Next(s, step)) && s.artifacts <= Next(s, step).artifacts
  {
    if step.AppendStep? {
      hide Append, Sound;
      if Append(s, step.kind, step.model, step.prompt, step.text).Success? {
        AppendKeepsSound(s, step.kind, step.model, step.prompt, step.text);
        AppendShape(s, step.kind, step.model, step.prompt, step.text);
      }
    } else {
      OthersLeaveArtifacts(s, step);
      hide Next, RefsOf, IsDerived;
    }
  }

  lemma {:induction false} CallsKeepSound(s: State, steps: seq<Step>)
    requires Sound(s)
    ensures Sound(Calls(s, steps)) && s.artifacts <= Calls(s, steps).artifacts
  {
    if steps != [] {
      hide Sound, Next;
      CallsKeepSound(s, steps[..|steps| - 1]);
      NextKeepsSound(Calls(s, steps[..|steps| - 1]), steps[|steps| - 1]);
    }
  }

  lemma {:induction false} AlwaysSound(steps: seq<Step>)
    ensures Sound(After(steps))
  {
    CallsKeepSound(EMPTY, steps);
  }

  // ----- identity of artifacts -----

  /** No two artifacts share run, type and object id, nor run, type and payload. */
  lemma {:induction false} NoTwoShareAnObjectId(steps: seq<Step>, i: nat, j: nat)
    requires i < j < |After(steps).artifacts|
    ensures var a, b := After(steps).artifacts[i], After(steps).artifacts[j];
      a.scope.runId == b.scope.runId && a.kind == b.kind ==>
        a.payload != b.payload && (a.objectId.None? || a.objectId != b.objectId)
  {
    AlwaysSound(steps);
  }

  /** The lookup after a conflict finds the one artifact that holds the payload, if one does. */
  lemma {:induction false} LookupFinds(s: State, kind: Kind, p: Payload, id: nat)
    requires Sound(s) && id < |s.artifacts| && s.artifacts[id].kind == kind && s.artifacts[id].payload == p
    ensures Lookup(s.artifacts, kind, p, 0) == Some(id)
  {
    var artifacts := s.artifacts;
    assert IsDerived(artifacts[id]);
    assert Matches(artifacts[id], kind, p);
    var found := Lookup(artifacts, kind, p, 0);
    assert Clash(artifacts[found.value], artifacts[id]) && Clash(artifacts[id], artifacts[found.value]);
  }

  /** Once an append has succeeded, the same append returns the same id and changes nothing, whatever
      calls come in between. */
  lemma {:induction false} ReplayReturnsSameId(steps: seq<Step>, more: seq<Step>, kind: Kind, model: Option<string>,
                                               prompt: Option<string>, text: PayloadText)
    requires Append(After(steps), kind, model, prompt, text).Success?
    ensures var (after, id) := Append(After(steps), kind, model, prompt, text).value;
      var later := Calls(after, more);
      Append(later, kind, model, prompt, text) == Success((later, id))
  {
    hide Append, PassesChecks, Sound, Derive, RefsOf, Clash, Matches;
    var s := After(steps);
    AlwaysSound(steps);
    AppendShape(s, kind, model, prompt, text);
    AppendKeepsSound(s, kind, model, prompt, text);
    var (after, id) := Append(s, kind, model, prompt, text).value;
    CallsKeepSound(after, more);
    var later := Calls(after, more);
    assert later.artifacts[id] == after.artifacts[id];
    hide After, Calls;
    FindsItself(later, kind, model, prompt, text, id);
  }

  /** An append whose artifact is there already finds it. */
  lemma {:induction false} FindsItself(s: State, kind: Kind, model: Option<string>, prompt: Option<string>,
                                       text: PayloadText, id: nat)
    requires Sound(s) && id < |s.artifacts| && text.Json?
    requires Derive(kind, model, prompt, text).Success? && PassesChecks(Derive(kind, model, prompt, text).value)
    requires s.artifacts[id].kind == kind && s.artifacts[id].payload == text.payload
    requires s.artifacts[id].model == model && s.artifacts[id].prompt == prompt
    ensures Append(s, kind, model, prompt, text) == Success((s, id))
  {
    hide PassesChecks, InsertArtifact;
    LookupFinds(s, kind, text.payload, id);
    SoundDerived(s, id);
    hide Sound;
    assert Clash(s.artifacts[id], Derive(kind, model, prompt, text).value);
  }

  lemma {:induction false} SoundDerived(s: State, id: nat)
    requires Sound(s) && id < |s.artifacts|
    ensures IsDerived(s.artifacts[id])
  {}

  /** An artifact with the object id of a payload is the only one that the lookup can find for it. */
  lemma {:induction false} OnlyClashMatches(s: State, kind: Kind, p: Payload, i: nat)
    requires Sound(s) && i < |s.artifacts| && Some(s.artifacts[i].scope.runId) == p.runId && s.artifacts[i].kind == kind
    requires ObjectId(kind, p).Some? && s.artifacts[i].objectId == ObjectId(kind, p)
    ensures forall k | 0 <= k < |s.artifacts| && Matches(s.artifacts[k], kind, p) :: k == i
  {
    forall k | 0 <= k < |s.artifacts| && Matches(s.artifacts[k], kind, p) ensures k == i {
      assert IsDerived(s.artifacts[k]);
      assert k < i ==> Clash(s.artifacts[k], s.artifacts[i]);
      assert i < k ==> Clash(s.artifacts[i], s.artifacts[k]);
    }
  }

  /** An append that meets an artifact it may not coexist with succeeds only for that very artifact. */
  lemma {:induction false} ConflictIsExact(steps: seq<Step>, kind: Kind, model: Option<string>, prompt: Option<string>,
                                           text: PayloadText, i: nat)
    requires var s := After(steps);
      && Derive(kind, model, prompt, text).Success? && PassesChecks(Derive(kind, model, prompt, text).value)
      && i < |s.artifacts| && Clash(s.artifacts[i], Derive(kind, model, prompt, text).value)
    ensures var s, a := After(steps), After(steps).artifacts[i];
      Append(s, kind, model, prompt, text) ==
        if a.payload == text.payload && a.model == model && a.prompt == prompt then Success((s, i))
        else Failure(ArtifactConflict)
  {
    var s := After(steps);
    AlwaysSound(steps);
    hide After, PassesChecks, InsertArtifact;
    var p := text.payload;
    if s.artifacts[i].payload == p {
      LookupFinds(s, kind, p, i);
    } else {
      OnlyClashMatches(s, kind, p, i);
    }
  }

  // ----- order of references -----

  /** The targets that a payload lists for a role, in payload order. */
  function Listed(kind: Kind, table: Table, role: Role, p: Payload): seq<string> {
    match (kind, table, role)
    case (ToolResult, Evidence, InResult) => p.evidenceRefs
    case (EvidenceBundle, Evidence, Included) => p.evidenceIds
    case (EvidenceBundle, Evidence, Excluded) => p.exclusionEvidenceIds
    case (EvidenceBundle, Evidence, InLimitation) => Concat(p.limitations)
    case (EvidenceBundle, Calculation, Included) => p.calculationIds
    case (EvidenceBundle, Claim, Candidate) => p.candidateClaimIds
    case (VerificationReport, Evidence, InClaimCheck) => Concat(p.claimChecks)
    case (VerificationReport, Evidence, InCalculationCheck) => Concat(CheckEvidence(p.calculationChecks))
    case (VerificationReport, Claim, Releaseable) => p.releaseableClaimIds
    case (VerificationReport, Claim, Rejected) => p.rejectedClaims
    case (AnswerPlan, Claim, InPlan) => Selected(p.blocks)
    case (ReleasedAnswer, Claim, Bound) => Concat(BoundClaims(p.claimBindings))
    case (ReleasedAnswer, Evidence, Bound) => Concat(BoundEvidence(p.claimBindings))
    case _ => []
  }

  ghost predicate IsChecked(r: Ref) {
    r.table == Calculation && r.role == Checked
  }

  lemma {:induction false} NumberedIs(n: nat, table: Table, role: Role, values: seq<string>, r: Ref)
    ensures r in Numbered(n, table, role, values) <==>
              r.artifact == n && r.table == table && r.role == role && r.ordinal < |values|
                  && r.target == values[r.ordinal]
  {}

  lemma {:induction false} NumberedOnlyForRole(n: nat, values: seq<string>, r: Ref)
    ensures forall table, role | r in Numbered(n, table, role, values) :: r.table == table && r.role == role
    ensures forall table, role :: Numbered(n, table, role, []) == {}
  {}

  lemma {:induction false} BundleRefs(n: nat, p: Payload, r: Ref)
    ensures r in RefsOf(n, EvidenceBundle, p) <==>
              r in Numbered(n, r.table, r.role, Listed(EvidenceBundle, r.table, r.role, p))
  {
    hide ByRowNumber, ListRows, Concat, Numbered;
    ListsKeepOrder(p.limitations, ListRows(p.limitations));
    NumberedOnlyForRole(n, p.evidenceIds, r);
    NumberedOnlyForRole(n, p.exclusionEvidenceIds, r);
    NumberedOnlyForRole(n, Concat(p.limitations), r);
    NumberedOnlyForRole(n, p.calculationIds, r);
    NumberedOnlyForRole(n, p.candidateClaimIds, r);
  }

  lemma {:induction false} ReportRefs(n: nat, p: Payload, r: Ref)
    requires !IsChecked(r)
    ensures r in RefsOf(n, VerificationReport, p) <==>
              r in Numbered(n, r.table, r.role, Listed(VerificationReport, r.table, r.role, p))
  {
    hide ByRowNumber, ListRows, Concat, CheckEvidence, Numbered;
    ListsKeepOrder(p.claimChecks, ListRows(p.claimChecks));
    ListsKeepOrder(CheckEvidence(p.calculationChecks), ListRows(CheckEvidence(p.calculationChecks)));
    NumberedOnlyForRole(n, Concat(p.claimChecks), r);
    NumberedOnlyForRole(n, Concat(CheckEvidence(p.calculationChecks)), r);
    NumberedOnlyForRole(n, p.releaseableClaimIds, r);
    NumberedOnlyForRole(n, p.rejectedClaims, r);
  }

  lemma {:induction false} AnswerRefs(n: nat, kind: Kind, p: Payload, r: Ref)
    requires !kind.EvidenceBundle? && !kind.VerificationReport?
    ensures r in RefsOf(n, kind, p) <==> r in Numbered(n, r.table, r.role, Listed(kind, r.table, r.role, p))
  {
    hide ByRowNumber, ListRows, SlotRows, CellRows, Concat, BoundClaims, BoundEvidence, Selected, Numbered;
    ListsKeepOrder(BoundClaims(p.claimBindings), ListRows(BoundClaims(p.claimBindings)));
    ListsKeepOrder(BoundEvidence(p.claimBindings), ListRows(BoundEvidence(p.claimBindings)));
    SelectionKeepsOrder(p.blocks, SlotRows(p.blocks) + CellRows(p.blocks));
    NumberedOnlyForRole(n, p.evidenceRefs, r);
    NumberedOnlyForRole(n, Selected(p.blocks), r);
    NumberedOnlyForRole(n, Concat(BoundClaims(p.claimBindings)), r);
    NumberedOnlyForRole(n, Concat(BoundEvidence(p.claimBindings)), r);
  }

  lemma {:induction false} RefsFollowLists(n: nat, kind: Kind, p: Payload, r: Ref)
    requires !IsChecked(r)
    ensures r in RefsOf(n, kind, p) <==>
              var listed := Listed(kind, r.table, r.role, p);
              r.artifact == n && r.ordinal < |listed| && r.target == listed[r.ordinal]
  {
    hide RefsOf, Listed;
    NumberedIs(n, r.table, r.role, Listed(kind, r.table, r.role, p), r);
    match kind
    case EvidenceBundle => BundleRefs(n, p, r);
    case VerificationReport => ReportRefs(n, p, r);
    case _ => AnswerRefs(n, kind, p, r);
  }

  /** For every role but 'checked' an artifact's references are numbered 0 to n - 1 in payload order: each
      listed target has one, and there are no others. */
  lemma {:induction false} OrdinalsFollowPayload(steps: seq<Step>, a: nat, table: Table, role: Role)
    requires a < |After(steps).artifacts| && !(table == Calculation && role == Checked)
    ensures var s := After(steps);
      var listed := Listed(s.artifacts[a].kind, table, role, s.artifacts[a].payload);
      && (forall i | 0 <= i < |listed| :: Ref(a, table, role, i, listed[i]) in s.refs)
      && (forall r | r in s.refs && r.artifact == a && r.table == table && r.role == role ::
            r.ordinal < |listed| && r.target == listed[r.ordinal])
  {
    var s := After(steps);
    AlwaysSound(steps);
    hide After, RefsOf, Listed;
    var kind, p := s.artifacts[a].kind, s.artifacts[a].payload;
    var listed := Listed(kind, table, role, p);
    forall i | 0 <= i < |listed| ensures Ref(a, table, role, i, listed[i]) in s.refs {
      RefsFollowLists(a, kind, p, Ref(a, table, role, i, listed[i]));
    }
    forall r | r in s.refs && r.artifact == a && r.table == table && r.role == role
      ensures r.ordinal < |listed| && r.target == listed[r.ordinal]
    {
      RefsFollowLists(a, kind, p, r);
    }
  }

  /** The 'checked' references keep the positions of calculation targets among all calculation checks. */
  lemma {:induction false} CheckedKeepPositions(steps: seq<Step>, a: nat, i: nat, target: string)
    requires a < |After(steps).artifacts| && After(steps).artifacts[a].kind == VerificationReport
    ensures var s, checks := After(steps), After(steps).artifacts[a].payload.calculationChecks;
      Ref(a, Calculation, Checked, i, target) in s.refs <==>
        i < |checks| && checks[i].targetType == "calculation" && checks[i].targetId == target
  {
    AlwaysSound(steps);
    hide After, ByRowNumber, ListRows;
  }

  ghost predicate HasOrdinal(s: State, a: nat, i: nat) {
    exists target :: Ref(a, Calculation, Checked, i, target) in s.refs
  }

  ghost predicate OrdinalsBelow(s: State, a: nat, n: nat) {
    forall i: nat :: HasOrdinal(s, a, i) <==> i < n
  }

  ghost predicate CalculationsFirst(checks: seq<Check>) {
    forall i, j | 0 <= i < j < |checks| && checks[j].targetType == "calculation" ::
        checks[i].targetType == "calculation"
  }

  /** They are numbered 0 to n - 1 exactly when the calculation targets come before all other targets. */
  lemma {:induction false} CheckedContiguousExactly(steps: seq<Step>, a: nat)
    requires a < |After(steps).artifacts| && After(steps).artifacts[a].kind == VerificationReport
    ensures (exists n: nat :: OrdinalsBelow(After(steps), a, n)) <==>
              CalculationsFirst(After(steps).artifacts[a].payload.calculationChecks)
  {
    var s, checks := After(steps), After(steps).artifacts[a].payload.calculationChecks;
    forall i: nat ensures HasOrdinal(s, a, i) <==> i < |checks| && checks[i].targetType == "calculation" {
      if i < |checks| {
        CheckedKeepPositions(steps, a, i, checks[i].targetId);
      }
      forall target ensures Ref(a, Calculation, Checked, i, target) in s.refs ==>
          i < |checks| && checks[i].targetType == "calculation" {
        CheckedKeepPositions(steps, a, i, target);
      }
    }
    ContiguousExactly(s, a, checks);
  }

  lemma {:induction false} ContiguousExactly(s: State, a: nat, checks: seq<Check>)
    requires forall i: nat :: HasOrdinal(s, a, i) <==> i < |checks| && checks[i].targetType == "calculation"
    ensures (exists n: nat :: OrdinalsBelow(s, a, n)) <==> CalculationsFirst(checks)
  {
    hide HasOrdinal;
    if n: nat :| OrdinalsBelow(s, a, n) {
      forall i, j | 0 <= i < j < |checks| && checks[j].targetType == "calculation"
          ensures checks[i].targetType == "calculation" {
        assert HasOrdinal(s, a, j) && HasOrdinal(s, a, i);
      }
    }
    if CalculationsFirst(checks) {
      var n := CalculationPrefix(checks);
      assert OrdinalsBelow(s, a, n);
    }
  }

  lemma {:induction false} CalculationPrefix(checks: seq<Check>) returns (n: nat)
    requires CalculationsFirst(checks)
    ensures n <= |checks|
    ensures forall i: nat :: i < |checks| && checks[i].targetType == "calculation" <==> i < n
  {
    if checks == [] {
      n := 0;
    } else if checks[|checks| - 1].targetType == "calculation" {
      assert forall i | 0 <= i < |checks| :: checks[i].targetType == "calculation";
      n := |checks|;
    } else {
      var front := checks[..|checks| - 1];
      assert forall i | 0 <= i < |front| :: front[i] == checks[i];
      n := CalculationPrefix(front);
      forall i: nat ensures i < |checks| && checks[i].targetType == "calculation" <==> i < n {
        if i < |front| {
          assert front[i] == checks[i];
        }
      }
    }
  }
}
