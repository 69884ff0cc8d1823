/** Runs of the ledger that show what its functions let through. */
module LedgerExamples {
  import opened Flattening
  import opened RequestLedger
  import opened Wrappers
  import CanonicalDecimals

  const HASH := CanonicalDecimals.Zeros(64)
  const CUTOFF := "2026-08-24"
  const SCOPE := Scope("run", HASH, "dataset", CUTOFF, "1")
  const RUN := Run(SCOPE, "question-1", "question", 0, 10, None)

  /** The payload of an artifact of the run. */
  function PayloadOf(texts: map<string, string>, checks: seq<Check>): Payload {
    Payload(Some("1"), Some(HASH), Some("run"), Some("dataset"), Some(CUTOFF), Some("producer"),
            Some("2026-08-24T09:00:00"),
            texts, [], [], [], [], [], [], [], [], checks, [], [], [], [], "")
  }

  const REPORT := PayloadOf(map["verification_report_id" := "report", "verification_status" := "pass",
                                "recommended_answer_disposition" := "answer"], [])
  const SILENT := PayloadOf(map["verification_report_id" := "report", "recommended_answer_disposition" := "answer"], [])
  const CHECKS := [Check("claim", "claim-1", []), Check("calculation", "calculation-1", [])]
  const MIXED := PayloadOf(map["verification_report_id" := "report"], CHECKS)
  const PLAN := PayloadOf(map["verification_report_id" := "report", "answer_disposition" := "answer"], [])
  const ANSWER := PayloadOf(map["answer_disposition" := "answer", "response_hash" := HASH], [])

  const START := StartStep(RUN, Some(("dataset", CUTOFF)))

  function Made(kind: Kind, p: Payload): Artifact {
    Artifact(kind, None, None, p, SCOPE, ObjectId(kind, p))
  }

  /** The ledger after the run has started and artifacts have been appended. */
  function Holding(calculations: set<(string, string, string)>, artifacts: seq<Artifact>, refs: set<Ref>): State {
    State({}, calculations, {}, map["run" := RUN], map[], artifacts, refs, map[])
  }

  lemma {:induction false} Starts(calculations: set<(string, string, string)>)
    ensures Next(EMPTY.(calculations := calculations), START) == Holding(calculations, [], {})
  {
    assert map[]["run" := RUN] == map["run" := RUN];
  }

  lemma {:induction false} Appends(s: State, kind: Kind, p: Payload)
    requires kind in {VerificationReport, AnswerPlan, ReleasedAnswer} && RunOf(s, SCOPE)
    requires p == PayloadOf(p.texts, p.calculationChecks)
    requires forall a | a in s.artifacts :: !Clash(a, Made(kind, p))
    requires forall r | r in RefsOf(|s.artifacts|, kind, p) :: TargetKnown(s, SCOPE, r)
    ensures Next(s, AppendStep(kind, None, None, Json(p))) ==
              s.(artifacts := s.artifacts + [Made(kind, p)], refs := s.refs + RefsOf(|s.artifacts|, kind, p))
  {
    hide RefsOf, TargetKnown, Clash, RunOf;
    assert Derive(kind, None, None, Json(p)) == Success(Made(kind, p));
    assert PassesChecks(Made(kind, p));
    hide Derive, PassesChecks;
  }

  lemma {:induction false} Follow(steps: seq<Step>, s: State, step: Step, all: seq<Step>)
    requires After(steps) == s && steps + [step] == all
    ensures After(all) == Next(s, step)
  {
    assert all[..|steps|] == steps;
  }

  lemma {:induction false} Started()
    ensures After([START]) == Holding({}, [], {})
  {
    assert EMPTY.(calculations := {}) == EMPTY;
    Starts({});
    Follow([], EMPTY, START, [START]);
  }

  /** Appending an artifact without references after others of other kinds. */
  lemma {:induction false} ThenAppended(steps: seq<Step>, artifacts: seq<Artifact>, kind: Kind, p: Payload)
    requires After(steps) == Holding({}, artifacts, {}) && p == PayloadOf(p.texts, [])
    requires kind in {VerificationReport, AnswerPlan, ReleasedAnswer} && forall a | a in artifacts :: a.kind != kind
    ensures After(steps + [AppendStep(kind, None, None, Json(p))]) == Holding({}, artifacts + [Made(kind, p)], {})
  {
    var append := AppendStep(kind, None, None, Json(p));
    NoRefs(|artifacts|, kind, p);
    Appends(Holding({}, artifacts, {}), kind, p);
    hide After, Next, RefsOf, PayloadOf;
    Follow(steps, Holding({}, artifacts, {}), append, steps + [append]);
  }

  lemma {:induction false} NoRefs(a: nat, kind: Kind, p: Payload)
    requires p == PayloadOf(p.texts, [])
    ensures RefsOf(a, kind, p) == {}
  {}

  lemma {:induction false} ReportTexts()
    ensures Get(REPORT, "verification_report_id") == Some("report")
            && Get(REPORT, "verification_status") == Some("pass")
    ensures Get(REPORT, "recommended_answer_disposition") == Some("answer")
    ensures Get(SILENT, "verification_report_id") == Some("report") && Get(SILENT, "verification_status") == None
    ensures Get(SILENT, "recommended_answer_disposition") == Some("answer")
  {
    var id, status, disposition := "verification_report_id", "verification_status", "recommended_answer_disposition";
    assert |id| == 22 && |status| == 19 && |disposition| == 30;
  }

  // ----- a run that ends well with a null outcome -----

  const FINISH := Finish(None, Some("pass"), Some("answer"), 200, Some("report"), None, 1)
  const NULL_OUTCOME := [START, AppendStep(VerificationReport, None, None, Json(REPORT)), FinishStep("run", FINISH)]

  lemma {:induction false} FinishesWithNull()
    ensures FinishRun(Holding({}, [Made(VerificationReport, REPORT)], {}), "run", FINISH).Success?
    ensures FinishRun(Holding({}, [Made(VerificationReport, REPORT)], {}), "run", FINISH).value.1.ending ==
              Some(Ending(None, Some("pass"), Some("answer"), 200, None, 1, Some(0)))
  {
    ReportTexts();
    hide Get, PayloadOf;
  }

  /** A run can end with status 200, a passing report and a null outcome. */
  lemma {:induction false} NullOutcomeIsReached()
    ensures "run" in After(NULL_OUTCOME).runs
    ensures After(NULL_OUTCOME).runs["run"].ending ==
              Some(Ending(None, Some("pass"), Some("answer"), 200, None, 1, Some(0)))
  {
    var before := [START, AppendStep(VerificationReport, None, None, Json(REPORT))];
    Started();
    ThenAppended([START], [], VerificationReport, REPORT);
    assert [START] + [before[1]] == before;
    Follow(before, Holding({}, [Made(VerificationReport, REPORT)], {}), FinishStep("run", FINISH), NULL_OUTCOME);
    hide After, PayloadOf, Made;
    FinishesWithNull();
  }

  // ----- a cached release on a report without a status -----

  const SILENT_RELEASE := [
    START,
    AppendStep(VerificationReport, None, None, Json(SILENT)),
    AppendStep(AnswerPlan, None, None, Json(PLAN)),
    AppendStep(ReleasedAnswer, None, None, Json(ANSWER)),
    CacheStep("run", 0, 1, 2)
  ]

  const ARTIFACTS := [Made(VerificationReport, SILENT), Made(AnswerPlan, PLAN), Made(ReleasedAnswer, ANSWER)]
  const RELEASED := CacheRow(SCOPE, 0, 1, 2, HASH)

  lemma {:induction false} AllAppended()
    ensures After(SILENT_RELEASE[..4]) == Holding({}, ARTIFACTS, {})
  {
    hide After;
    Started();
    ThenAppended([START], [], VerificationReport, SILENT);
    ThenAppended(SILENT_RELEASE[..2], ARTIFACTS[..1], AnswerPlan, PLAN) by {
      assert SILENT_RELEASE[..2] == [START] + [SILENT_RELEASE[1]];
    }
    ThenAppended(SILENT_RELEASE[..3], ARTIFACTS[..2], ReleasedAnswer, ANSWER) by {
      assert SILENT_RELEASE[..3] == SILENT_RELEASE[..2] + [SILENT_RELEASE[2]];
    }
    assert SILENT_RELEASE[..4] == SILENT_RELEASE[..3] + [SILENT_RELEASE[3]];
    assert ARTIFACTS[..2] + [ARTIFACTS[2]] == ARTIFACTS;
  }

  lemma {:induction false} GateLetsBy()
    ensures GateAgrees(ARTIFACTS[0], ARTIFACTS[1], ARTIFACTS[2]) && Get(ANSWER, "response_hash") == Some(HASH)
  {
    ReportTexts();
    var disposition, hash, id := "answer_disposition", "response_hash", "verification_report_id";
    assert |disposition| == 18 && |hash| == 13 && |id| == 22;
  }

  lemma {:induction false} ReleasesSilently()
    ensures ReleaseRow(Holding({}, ARTIFACTS, {}), "run", 0, 1, 2) == Success(RELEASED)
  {
    GateLetsBy();
    assert Slots(PLAN.blocks) == [] && Claims(ANSWER) == [];
    assert ClaimSetsAgree(SILENT, PLAN, ANSWER) by { assert (set c | c in Slots(PLAN.blocks)) == {}; }
    hide GateAgrees, ClaimSetsAgree, Get, Claims;
  }

  lemma {:induction false} CachesSilently()
    ensures Next(Holding({}, ARTIFACTS, {}), CacheStep("run", 0, 1, 2)) ==
              Holding({}, ARTIFACTS, {}).(cache := map[CacheKey(SCOPE) := RELEASED])
  {
    ReleasesSilently();
    hide ReleaseRow, PayloadOf, Made;
    assert map[][CacheKey(SCOPE) := RELEASED] == map[CacheKey(SCOPE) := RELEASED];
  }

  /** An answer can be cached on the strength of a report that carries no verification status. */
  lemma {:induction false} SilentReportIsReleased()
    ensures var s := After(SILENT_RELEASE);
      && GetCached(s, CacheKey(SCOPE)) == Some(ANSWER)
      && s.cache[CacheKey(SCOPE)] == RELEASED && |s.artifacts| == 3
      && s.artifacts[RELEASED.verification].payload == SILENT && Get(SILENT, "verification_status") == None
  {
    ReportTexts();
    AllAppended();
    CachesSilently();
    hide Next, PayloadOf, Get, ObjectId;
    assert SILENT_RELEASE[..4] + [SILENT_RELEASE[4]] == SILENT_RELEASE;
    Follow(SILENT_RELEASE[..4], Holding({}, ARTIFACTS, {}), SILENT_RELEASE[4], SILENT_RELEASE);
    hide After;
  }

  // ----- a checked reference that is not numbered from zero -----

  const CALCULATION := ("run", "dataset", "calculation-1")
  const MIXED_CHECKS := [AddTargets({}, {CALCULATION}, {}), START,
                         AppendStep(VerificationReport, None, None, Json(MIXED))]

  lemma {:induction false} MixedRefs()
    ensures RefsOf(0, VerificationReport, MIXED) == {Ref(0, Calculation, Checked, 1, "calculation-1")}
  {
    var kind := CHECKS[0].targetType;
    assert |kind| == 5 && |CHECKS| == 2;
    forall r ensures r in CheckedRefs(0, CHECKS) <==> r == Ref(0, Calculation, Checked, 1, "calculation-1") {
      assert CHECKS[1].targetType == "calculation" && CHECKS[1].targetId == "calculation-1";
    }
    assert CheckedRefs(0, CHECKS) == {Ref(0, Calculation, Checked, 1, "calculation-1")};
    hide CheckedRefs;
    assert CheckEvidence(CHECKS[..1]) == [[]] && CheckEvidence(CHECKS) == [[], []] by {
      assert CHECKS[..1][..0] == [];
    }
    assert Concat([[], []]) == Concat([[]]) == [];
    ListsKeepOrder([], ListRows([]));
    ListsKeepOrder(CheckEvidence(CHECKS), ListRows(CheckEvidence(CHECKS)));
    hide ByRowNumber, ListRows;
  }

  lemma {:induction false} MixedAppended()
    ensures var before := Holding({CALCULATION}, [], {});
      Next(before, MIXED_CHECKS[2]) ==
        before.(artifacts := [Made(VerificationReport, MIXED)],
                refs := {Ref(0, Calculation, Checked, 1, "calculation-1")})
  {
    MixedRefs();
    hide RefsOf;
    Appends(Holding({CALCULATION}, [], {}), VerificationReport, MIXED);
    hide Next;
  }

  lemma {:induction false} MixedStarted()
    ensures After(MIXED_CHECKS[..2]) == Holding({CALCULATION}, [], {})
  {
    hide PayloadOf;
    var known := EMPTY.(calculations := {CALCULATION});
    assert Next(EMPTY, MIXED_CHECKS[0]) == known;
    Starts({CALCULATION});
    hide Next;
    Follow([], EMPTY, MIXED_CHECKS[0], MIXED_CHECKS[..1]);
    Follow(MIXED_CHECKS[..1], known, START, MIXED_CHECKS[..2]);
  }

  /** The checks of this report are a claim and a calculation, and its one 'checked' reference has ordinal 1. */
  lemma {:induction false} CheckedStartsAtOne()
    ensures var s := After(MIXED_CHECKS);
      && |s.artifacts| == 1 && s.artifacts[0].payload.calculationChecks == CHECKS
      && s.refs == {Ref(0, Calculation, Checked, 1, "calculation-1")}
  {
    hide Next, After;
    MixedStarted();
    MixedAppended();
    assert MIXED_CHECKS[..2] + [MIXED_CHECKS[2]] == MIXED_CHECKS;
    Follow(MIXED_CHECKS[..2], Holding({CALCULATION}, [], {}), MIXED_CHECKS[2], MIXED_CHECKS);
  }
}
