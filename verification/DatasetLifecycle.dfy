/** The life of a dataset: building, validation, readiness of its components, activation, retirement. */
module DatasetLifecycle {
  import opened DatasetStatus
  import opened Hashes
  import opened Wrappers

  datatype Dataset = Dataset(cutoff: string, manifestHash: string, previous: Option<string>, status: Status)

  datatype Validation = Validation(dataset: string, manifestHash: string, passed: bool)

  datatype Readiness = Readiness(validation: string, manifestHash: string)

  /** The tables; `active` is the one row that points to the active dataset. */
  datatype Tables = Tables(datasets: map<string, Dataset>, validations: map<string, Validation>,
                           readiness: map<(string, string), Readiness>, active: Option<string>)

  datatype Error =
    | CutoffCheck | HashCheck | ComponentCheck | DuplicateKey | ForeignKey
    | InvalidTransition | SecondActive
    | DatasetNotBuilding | ValidationRunNotFound | ManifestMismatch
    | SuccessfulValidationRequired | DatasetNotReadyForComponent
    | DatasetNotFound | LegacyDataset | DatasetNotValidated | ReadinessIncomplete | ActivationConflict

  const LEGACY_CUTOFF := "2026-07-11"
  const CURRENT_CUTOFF := "2026-08-24"
  const COMPONENTS := {"postgres", "graph", "vector", "evidence"}

  function Require<T>(condition: bool, error: Error, otherwise: Result<T, Error>): Result<T, Error> {
    if condition then otherwise else Failure(error)
  }

  // ----- the operations -----

  /** Inserting a dataset: its status is always the column's default. */
  function Create(s: Tables, d: string, cutoff: string, hash: string, previous: Option<string>): Result<Tables, Error> {
    Require(cutoff == LEGACY_CUTOFF || cutoff == CURRENT_CUTOFF, CutoffCheck,
    Require(IsHash(hash), HashCheck,
    Require(d !in s.datasets, DuplicateKey,
    Require(previous.None? || previous.value in s.datasets || previous.value == d, ForeignKey,
      Success(s.(datasets := s.datasets[d := Dataset(cutoff, hash, previous, Building)]))))))
  }

  /** Inserting a validation run, behind the building-only trigger. */
  function RecordValidation(s: Tables, id: string, d: string, hash: string, passed: bool): Result<Tables, Error> {
    Require(d in s.datasets && s.datasets[d].status == Building, DatasetNotBuilding,
    Require(IsHash(hash), HashCheck,
    Require(id !in s.validations, DuplicateKey,
    Require(d in s.datasets && s.datasets[d].manifestHash == hash, ForeignKey,
      Success(s.(validations := s.validations[id := Validation(d, hash, passed)]))))))
  }

  /** Updating a status: the transition trigger, then the index that allows one active dataset. */
  function Move(s: Tables, d: string, status: Status): Result<Tables, Error>
    requires d in s.datasets
  {
    Require(MayFollow(s.datasets[d].status, status), InvalidTransition,
    Require(status == Active ==> forall e | e in s.datasets && e != d :: s.datasets[e].status != Active, SecondActive,
      Success(s.(datasets := s.datasets[d := s.datasets[d].(status := status)]))))
  }

  function FinishValidation(s: Tables, id: string): Result<Tables, Error> {
    if id !in s.validations then Failure(ValidationRunNotFound)
    else
      var v := s.validations[id];
      if v.dataset !in s.datasets || s.datasets[v.dataset].status != Building then Failure(DatasetNotBuilding)
      else if s.datasets[v.dataset].manifestHash != v.manifestHash then Failure(ManifestMismatch)
      else Move(s, v.dataset, if v.passed then Validated else Failed)
  }

  function RecordReadiness(s: Tables, d: string, component: string, id: string,
                           componentHash: string): Result<Tables, Error> {
    if id !in s.validations || s.validations[id].dataset != d || !s.validations[id].passed
    then Failure(SuccessfulValidationRequired)
    else if d !in s.datasets then Failure(DatasetNotFound)
    else if s.datasets[d].status != Building && s.datasets[d].status != Validated
    then Failure(DatasetNotReadyForComponent)
    else if s.validations[id].manifestHash != s.datasets[d].manifestHash then Failure(ManifestMismatch)
    else if component !in COMPONENTS then Failure(ComponentCheck)
    else if !IsHash(componentHash) then Failure(HashCheck)
    else if (d, component) in s.readiness then Failure(DuplicateKey)
    else Success(s.(readiness := s.readiness[(d, component) := Readiness(id, s.datasets[d].manifestHash)]))
  }

  /** The components with a readiness row. */
  function ReadyComponents(s: Tables, d: string): set<string> {
    set c | c in COMPONENTS && (d, c) in s.readiness
  }

  /** Retiring the dataset that was active before. */
  function RetirePrior(s: Tables, d: string): Result<Tables, Error> {
    if s.active.Some? && s.active.value != d && s.active.value in s.datasets
        && s.datasets[s.active.value].status == Active
    then Move(s, s.active.value, Retired)
    else Success(s)
  }

  function Activate(s: Tables, d: string): Result<Tables, Error> {
    if d !in s.datasets then Failure(DatasetNotFound)
    else if s.datasets[d].cutoff != CURRENT_CUTOFF then Failure(LegacyDataset)
    else if s.datasets[d].status != Validated then Failure(DatasetNotValidated)
    else if |ReadyComponents(s, d)| != 4 then Failure(ReadinessIncomplete)
    else
      var retired := RetirePrior(s, d);
      if retired.Failure? then retired
      else if d !in retired.value.datasets || retired.value.datasets[d].status != Validated
      then Failure(ActivationConflict)
      else
        var moved := Move(retired.value, d, Active);
        if moved.Failure? then moved else Success(moved.value.(active := Some(d)))
  }

  // ----- runs -----

  datatype Step =
    | CreateStep(dataset: string, cutoff: string, hash: string, previous: Option<string>)
    | ValidationStep(id: string, dataset: string, hash: string, passed: bool)
    | FinishStep(id: string)
    | ReadinessStep(dataset: string, component: string, id: string, hash: string)
    | ActivateStep(dataset: string)

  function Outcome(s: Tables, step: Step): Result<Tables, Error> {
    match step
    case CreateStep(d, cutoff, hash, previous) => Create(s, d, cutoff, hash, previous)
    case ValidationStep(id, d, hash, passed) => RecordValidation(s, id, d, hash, passed)
    case FinishStep(id) => FinishValidation(s, id)
    case ReadinessStep(d, component, id, hash) => RecordReadiness(s, d, component, id, hash)
    case ActivateStep(d) => Activate(s, d)
  }

  /** A failed operation rolls back. */
  function Next(s: Tables, step: Step): Tables {
    if Outcome(s, step).Success? then Outcome(s, step).value else s
  }

  const FRESH := Tables(map[], map[], map[], None)

  function After(steps: seq<Step>): Tables {
    if steps == [] then FRESH else Next(After(steps[..|steps| - 1]), steps[|steps| - 1])
  }

  // ----- what holds in every reachable state -----

  /** A readiness row comes from a passing validation of its dataset, under the dataset's own manifest. */
  ghost predicate ReadinessSound(s: Tables, d: string, c: string)
    requires (d, c) in s.readiness
  {
    var r := s.readiness[(d, c)];
    && c in COMPONENTS
    && d in s.datasets && r.manifestHash == s.datasets[d].manifestHash
    && r.validation in s.validations && s.validations[r.validation] == Validation(d, r.manifestHash, true)
  }

  ghost predicate ActiveSound(s: Tables, d: string)
    requires d in s.datasets
  {
    s.datasets[d].status == Active ==>
      && s.active == Some(d)
      && s.datasets[d].cutoff == CURRENT_CUTOFF
      && forall c | c in COMPONENTS :: (d, c) in s.readiness
  }

  /** Some validation of the dataset, under its own manifest, ended this way. */
  ghost predicate HasValidation(s: Tables, d: string, passed: bool)
    requires d in s.datasets
  {
    exists id :: id in s.validations && s.validations[id] == Validation(d, s.datasets[d].manifestHash, passed)
  }

  /** A dataset that has been validated has a passing validation, and one that has failed a failing one. */
  ghost predicate StatusSound(s: Tables, d: string)
    requires d in s.datasets
  {
    && (s.datasets[d].status in {Validated, Active, Retired} ==> HasValidation(s, d, true))
    && (s.datasets[d].status == Failed ==> HasValidation(s, d, false))
  }

  ghost predicate Sound(s: Tables) {
    && (forall d, c | (d, c) in s.readiness :: ReadinessSound(s, d, c))
    && (forall d | d in s.datasets :: ActiveSound(s, d))
    && (forall d | d in s.datasets :: StatusSound(s, d))
    && (s.active.Some? ==> s.active.value in s.datasets && s.datasets[s.active.value].status == Active)
  }

  lemma {:induction false} AllFour(s: Tables, d: string)
    ensures |ReadyComponents(s, d)| == 4 <==> forall c | c in COMPONENTS :: (d, c) in s.readiness
  {
    assert |COMPONENTS| == 4 by {
      assert "postgres"[0] == 'p' && "graph"[0] == 'g' && "vector"[0] == 'v' && "evidence"[0] == 'e';
    }
    PartIsWhole(ReadyComponents(s, d), COMPONENTS);
  }

  lemma {:induction false} PartIsWhole(part: set<string>, whole: set<string>)
    requires part <= whole
    ensures |part| == |whole| <==> forall x | x in whole :: x in part
  {
    assert whole == part + (whole - part) && |whole| == |part| + |whole - part|;
    if forall x | x in whole :: x in part {
      assert part == whole;
    } else {
      assert whole - part != {};
    }
  }

  /** In a sound state activation fails for exactly four reasons; otherwise it retires the dataset that was
      active, activates this one, names it in the singleton row, and changes nothing else. */
  lemma {:induction false} ActivationIsExact(s: Tables, d: string)
    requires Sound(s)
    ensures Activate(s, d).Success? <==>
              && d in s.datasets && s.datasets[d].cutoff == CURRENT_CUTOFF && s.datasets[d].status == Validated
              && forall c | c in COMPONENTS :: (d, c) in s.readiness
    ensures Activate(s, d).Failure? ==>
              Activate(s, d).error in {DatasetNotFound, LegacyDataset, DatasetNotValidated, ReadinessIncomplete}
    ensures Activate(s, d).Success? ==>
              var after := Activate(s, d).value;
              && after.validations == s.validations && after.readiness == s.readiness && after.active == Some(d)
              && after.datasets.Keys == s.datasets.Keys
              && forall e | e in s.datasets :: after.datasets[e] ==
                   if e == d then s.datasets[e].(status := Active)
                   else if s.active == Some(e) then s.datasets[e].(status := Retired)
                   else s.datasets[e]
  {
    AllFour(s, d);
    assert forall e | e in s.datasets :: ActiveSound(s, e);
  }

  lemma {:induction false} NextKeepsSound(s: Tables, step: Step)
    requires Sound(s)
    ensures Sound(Next(s, step))
  {
    if step.ActivateStep? && Outcome(s, step).Success? {
      ActivationKeepsSound(s, step.dataset);
    } else {
      OthersKeepSound(s, step);
    }
    hide Sound, Outcome;
  }

  lemma {:induction false} ActivationKeepsSound(s: Tables, target: string)
    requires Sound(s) && Activate(s, target).Success?
    ensures Sound(Activate(s, target).value)
  {
    ActivationIsExact(s, target);
    var after := Activate(s, target).value;
    hide Activate;
    forall d, c | (d, c) in after.readiness ensures ReadinessSound(after, d, c) {
      assert ReadinessSound(s, d, c);
    }
    forall d | d in after.datasets ensures ActiveSound(after, d) {
      assert ActiveSound(s, d);
    }
    forall d | d in after.datasets ensures StatusSound(after, d) {
      ActivationKeepsStatus(s, target, d);
    }
    hide ReadinessSound, ActiveSound, StatusSound;
  }

  lemma {:induction false} ActivationKeepsStatus(s: Tables, target: string, d: string)
    requires Sound(s) && Activate(s, target).Success? && d in Activate(s, target).value.datasets
    ensures StatusSound(Activate(s, target).value, d)
  {
    var after := Activate(s, target).value;
    ActivationIsExact(s, target);
    hide Activate;
    assert StatusSound(s, d) && ActiveSound(s, d);
    assert s.active == Some(d) ==> s.datasets[d].status == Active;
    hide Sound, ActiveSound;
    assert forall passed | HasValidation(s, d, passed) :: HasValidation(after, d, passed);
  }

  lemma {:induction false} OthersKeepSound(s: Tables, step: Step)
    requires Sound(s) && (step.ActivateStep? ==> Outcome(s, step).Failure?)
    ensures Sound(Next(s, step))
  {
    hide IsHash, Activate;
    var after := Next(s, step);
    forall d, c | (d, c) in after.readiness ensures ReadinessSound(after, d, c) {
      assert (d, c) in s.readiness ==> ReadinessSound(s, d, c);
    }
    forall d | d in after.datasets ensures ActiveSound(after, d) {
      assert d in s.datasets ==> ActiveSound(s, d);
    }
    forall d | d in after.datasets ensures StatusSound(after, d) {
      StatusStaysSound(s, step, d);
    }
  }

  lemma {:induction false} StatusStaysSound(s: Tables, step: Step, d: string)
    requires Sound(s) && (step.ActivateStep? ==> Outcome(s, step).Failure?) && d in Next(s, step).datasets
    ensures StatusSound(Next(s, step), d)
  {
    hide IsHash, Activate;
    var after := Next(s, step);
    if d in s.datasets {
      assert StatusSound(s, d);
      forall passed | HasValidation(s, d, passed) ensures HasValidation(after, d, passed) {
        var id :| id in s.validations && s.validations[id] == Validation(d, s.datasets[d].manifestHash, passed);
        assert id in after.validations && after.validations[id] == s.validations[id];
      }
    }
    if step.FinishStep? && Outcome(s, step).Success? && s.validations[step.id].dataset == d {
      assert s.validations[step.id] == Validation(d, s.datasets[d].manifestHash, s.validations[step.id].passed);
      assert HasValidation(after, d, s.validations[step.id].passed);
    }
  }

  // ----- what each call does -----

  /** Every dataset but one is as it was, and so are validations, readiness and the singleton row. */
  ghost predicate OnlyDataset(s: Tables, after: Tables, d: string) {
    && after.datasets.Keys == s.datasets.Keys + {d}
    && (forall e | e in s.datasets && e != d :: after.datasets[e] == s.datasets[e])
    && after.validations == s.validations && after.readiness == s.readiness && after.active == s.active
  }

  /** What an error says of the call and of the tables that it met. */
  ghost predicate Explains(s: Tables, step: Step, error: Error) {
    match error
    case CutoffCheck => step.CreateStep? && step.cutoff !in {LEGACY_CUTOFF, CURRENT_CUTOFF}
    case HashCheck => (step.CreateStep? || step.ValidationStep? || step.ReadinessStep?) && !IsHash(step.hash)
    case ComponentCheck => step.ReadinessStep? && step.component !in COMPONENTS
    case DuplicateKey =>
      || (step.CreateStep? && step.dataset in s.datasets)
      || (step.ValidationStep? && step.id in s.validations)
      || (step.ReadinessStep? && (step.dataset, step.component) in s.readiness)
    case ForeignKey =>
      || (step.CreateStep? && step.previous.Some? && step.previous.value !in s.datasets)
      || (step.ValidationStep? && step.dataset in s.datasets && s.datasets[step.dataset].manifestHash != step.hash)
    case DatasetNotBuilding =>
      || (step.ValidationStep? && !(step.dataset in s.datasets && s.datasets[step.dataset].status == Building))
      || (step.FinishStep? && step.id in s.validations
          && !(s.validations[step.id].dataset in s.datasets
               && s.datasets[s.validations[step.id].dataset].status == Building))
    case ValidationRunNotFound => step.FinishStep? && step.id !in s.validations
    case ManifestMismatch =>
      (step.FinishStep? || step.ReadinessStep?) && step.id in s.validations
      && s.validations[step.id].dataset in s.datasets
      && s.datasets[s.validations[step.id].dataset].manifestHash != s.validations[step.id].manifestHash
    case SuccessfulValidationRequired =>
      step.ReadinessStep?
      && !(step.id in s.validations && s.validations[step.id].dataset == step.dataset && s.validations[step.id].passed)
    case DatasetNotFound => (step.ReadinessStep? || step.ActivateStep?) && step.dataset !in s.datasets
    case DatasetNotReadyForComponent =>
      step.ReadinessStep? && step.dataset in s.datasets && s.datasets[step.dataset].status !in {Building, Validated}
    case LegacyDataset =>
      step.ActivateStep? && step.dataset in s.datasets && s.datasets[step.dataset].cutoff != CURRENT_CUTOFF
    case DatasetNotValidated =>
      step.ActivateStep? && step.dataset in s.datasets && s.datasets[step.dataset].status != Validated
    case ReadinessIncomplete => step.ActivateStep? && exists c :: c in COMPONENTS && (step.dataset, c) !in s.readiness
    case _ => false
  }

  /** Every error is true of the call that it ends; the transition trigger, the one-active index and the activation
      conflict never are the reason. */
  lemma {:induction false} ErrorsExplain(s: Tables, step: Step)
    requires Sound(s) && Outcome(s, step).Failure?
    ensures Explains(s, step, Outcome(s, step).error)
  {
    hide IsHash;
    if step.ActivateStep? {
      ActivationIsExact(s, step.dataset);
      AllFour(s, step.dataset);
    }
    hide Sound;
  }

  /** Finishing a validation succeeds exactly for a run of a dataset that is being built under the same manifest;
      it makes the dataset validated if the run passed and failed otherwise, and changes nothing else. */
  lemma {:induction false} FinishIsExact(s: Tables, id: string)
    ensures Outcome(s, FinishStep(id)).Success? <==>
              && id in s.validations && s.validations[id].dataset in s.datasets
              && s.datasets[s.validations[id].dataset].status == Building
              && s.datasets[s.validations[id].dataset].manifestHash == s.validations[id].manifestHash
    ensures Outcome(s, FinishStep(id)).Success? ==>
              var d, after := s.validations[id].dataset, Next(s, FinishStep(id));
              && OnlyDataset(s, after, d)
              && after.datasets[d].status == (if s.validations[id].passed then Validated else Failed)
              && after.datasets[d] == s.datasets[d].(status := after.datasets[d].status)
  {}

  /** A dataset is created under a new version only, as one that is being built. */
  lemma {:induction false} CreateIsExact(s: Tables, d: string, cutoff: string, hash: string, previous: Option<string>)
    ensures Outcome(s, CreateStep(d, cutoff, hash, previous)).Success? <==>
              && cutoff in {LEGACY_CUTOFF, CURRENT_CUTOFF} && IsHash(hash) && d !in s.datasets
              && (previous.Some? ==> previous.value in s.datasets || previous.value == d)
    ensures Outcome(s, CreateStep(d, cutoff, hash, previous)).Success? ==>
              var after := Next(s, CreateStep(d, cutoff, hash, previous));
              && OnlyDataset(s, after, d)
              && after.datasets[d].status == Building && after.datasets[d].cutoff == cutoff
              && after.datasets[d].manifestHash == hash && after.datasets[d].previous == previous
  {
    hide IsHash;
  }

  /** A validation run is recorded under a new id only, while its dataset is being built and under its manifest. */
  lemma {:induction false} ValidationIsExact(s: Tables, id: string, d: string, hash: string, passed: bool)
    ensures Outcome(s, ValidationStep(id, d, hash, passed)).Success? <==>
              && d in s.datasets && s.datasets[d].status == Building && s.datasets[d].manifestHash == hash
              && IsHash(hash) && id !in s.validations
    ensures Outcome(s, ValidationStep(id, d, hash, passed)).Success? ==>
              var after := Next(s, ValidationStep(id, d, hash, passed));
              && after.datasets == s.datasets && after.readiness == s.readiness && after.active == s.active
              && after.validations.Keys == s.validations.Keys + {id}
              && (forall e | e in s.validations :: after.validations[e] == s.validations[e])
              && after.validations[id].dataset == d && after.validations[id].manifestHash == hash
              && after.validations[id].passed == passed
  {
    hide IsHash;
  }

  /** A component is recorded as ready once, on a passing validation of a dataset that is being built or validated,
      under the dataset's manifest. */
  lemma {:induction false} ReadinessIsExact(s: Tables, d: string, c: string, id: string, hash: string)
    ensures Outcome(s, ReadinessStep(d, c, id, hash)).Success? <==>
              && d in s.datasets && s.datasets[d].status in {Building, Validated}
              && id in s.validations && s.validations[id] == Validation(d, s.datasets[d].manifestHash, true)
              && c in COMPONENTS && IsHash(hash) && (d, c) !in s.readiness
    ensures Outcome(s, ReadinessStep(d, c, id, hash)).Success? ==>
              var after := Next(s, ReadinessStep(d, c, id, hash));
              && after.datasets == s.datasets && after.validations == s.validations && after.active == s.active
              && after.readiness.Keys == s.readiness.Keys + {(d, c)}
              && (forall k | k in s.readiness :: after.readiness[k] == s.readiness[k])
              && after.readiness[(d, c)].validation == id
              && after.readiness[(d, c)].manifestHash == s.datasets[d].manifestHash
  {
    hide IsHash;
  }

  lemma {:induction false} AlwaysSound(steps: seq<Step>)
    ensures Sound(After(steps))
  {
    if steps != [] {
      hide Sound;
      AlwaysSound(steps[..|steps| - 1]);
      NextKeepsSound(After(steps[..|steps| - 1]), steps[|steps| - 1]);
    } else {
      assert Sound(FRESH);
    }
  }

  /** From a fresh database, a dataset is active exactly when the singleton row names it; so at most one is. */
  lemma {:induction false} ActiveIsTheSingleton(steps: seq<Step>, d: string)
    ensures var s := After(steps);
      && (d in s.datasets && s.datasets[d].status == Active <==> s.active == Some(d))
      && (s.active == Some(d) ==>
            && s.datasets[d].cutoff == CURRENT_CUTOFF
            && forall c | c in COMPONENTS :: (d, c) in s.readiness && ReadinessSound(s, d, c))
  {
    AlwaysSound(steps);
    hide After;
    if d in After(steps).datasets {
      assert ActiveSound(After(steps), d);
    }
  }

  /** In every reachable state a dataset that is validated, active or retired has a passing validation under its own
      manifest, and one that has failed has a failing one. */
  lemma {:induction false} StatusesHaveValidations(steps: seq<Step>, d: string)
    requires d in After(steps).datasets
    ensures var s := After(steps);
      && (s.datasets[d].status in {Validated, Active, Retired} ==>
            exists id :: id in s.validations && s.validations[id] == Validation(d, s.datasets[d].manifestHash, true))
      && (s.datasets[d].status == Failed ==>
            exists id :: id in s.validations && s.validations[id] == Validation(d, s.datasets[d].manifestHash, false))
  {
    AlwaysSound(steps);
    hide After;
    assert StatusSound(After(steps), d);
  }

  // ----- the preflight query -----

  /** The components that the query counts for dataset `d`. */
  function Counted(s: Tables, d: string): set<string>
    requires d in s.datasets
  {
    set c | c in COMPONENTS && (d, c) in s.readiness && s.readiness[(d, c)].manifestHash == s.datasets[d].manifestHash
  }

  predicate SingletonConsistent(s: Tables) {
    s.active.Some? ==>
      && s.active.value in s.datasets && s.datasets[s.active.value].status == Active
      && |Counted(s, s.active.value)| == 4
  }

  predicate ActiveConsistent(s: Tables) {
    !exists d :: d in s.datasets && s.datasets[d].status == Active && s.active != Some(d)
  }

  lemma {:induction false} SoundIsConsistent(s: Tables)
    requires Sound(s)
    ensures SingletonConsistent(s) && ActiveConsistent(s)
  {
    assert forall d | d in s.datasets :: ActiveSound(s, d);
    if s.active.Some? {
      var d := s.active.value;
      AllFour(s, d);
      assert Counted(s, d) == ReadyComponents(s, d) by {
        forall c | c in COMPONENTS ensures (d, c) in s.readiness
            && s.readiness[(d, c)].manifestHash == s.datasets[d].manifestHash {
          assert ReadinessSound(s, d, c);
        }
      }
    }
  }

  /** The consistency query that the preflight runs is true in every state reachable from a fresh database. */
  lemma {:induction false} PreflightAlwaysConsistent(steps: seq<Step>)
    ensures SingletonConsistent(After(steps)) && ActiveConsistent(After(steps))
  {
    AlwaysSound(steps);
    SoundIsConsistent(After(steps));
  }

  // ----- statuses only move forward -----

  function Rank(status: Status): nat {
    match status
    case Building => 0
    case Validated => 1
    case Active => 2
    case Retired => 3
    case Failed => 3
  }

  lemma {:induction false} NextMovesForward(s: Tables, step: Step, d: string)
    requires Sound(s) && d in s.datasets
    ensures d in Next(s, step).datasets
    ensures Next(s, step).datasets[d] == s.datasets[d].(status := Next(s, step).datasets[d].status)
    ensures Next(s, step).datasets[d].status == s.datasets[d].status
            || Rank(s.datasets[d].status) < Rank(Next(s, step).datasets[d].status)
  {
    hide IsHash;
    if step.ActivateStep? {
      ActivationIsExact(s, step.dataset);
      hide Activate;
      assert ActiveSound(s, d);
    }
  }

  /** Over any run, datasets are never removed or changed but for their status, which never goes back. */
  lemma {:induction false} DatasetsMoveForward(steps: seq<Step>, n: nat, d: string)
    requires n <= |steps| && d in After(steps[..n]).datasets
    ensures var before, after := After(steps[..n]).datasets, After(steps).datasets;
      && d in after && after[d] == before[d].(status := after[d].status)
      && (after[d].status == before[d].status || Rank(before[d].status) < Rank(after[d].status))
  {
    hide Sound;
    var k := |steps| - 1;
    if n == |steps| {
      assert steps[..n] == steps;
    } else {
      assert steps[..k][..n] == steps[..n];
      DatasetsMoveForward(steps[..k], n, d);
      AlwaysSound(steps[..k]);
      NextMovesForward(After(steps[..k]), steps[k], d);
    }
  }

  // ----- the functions at work -----

  class Catalog {
    var datasets: map<string, Dataset>
    var validations: map<string, Validation>
    var readiness: map<(string, string), Readiness>
    var active: Option<string>

    function Now(): Tables
      reads this
    {
      Tables(datasets, validations, readiness, active)
    }

    constructor ()
      ensures Now() == FRESH
    {
      datasets, validations, readiness, active := map[], map[], map[], None;
    }

    /** Updates the status of a dataset that still has status `from`; the trigger and the index may object. */
    method UpdateStatus(d: string, from: Status, to: Status) returns (found: bool, error: Option<Error>)
      modifies this`datasets
      ensures found <==> d in old(datasets) && old(datasets[d].status) == from
      ensures found ==> error == (if Move(old(Now()), d, to).Failure? then Some(Move(old(Now()), d, to).error)
                                  else None)
      ensures found && error.None? ==> Now() == Move(old(Now()), d, to).value
      ensures !found ==> error.None?
      ensures !found || error.Some? ==> Now() == old(Now())
    {
      error := None;
      found := d in datasets && datasets[d].status == from;
      if found {
        if !MayFollow(from, to) {
          return true, Some(InvalidTransition);
        }
        if to == Active && exists e :: e in datasets && e != d && datasets[e].status == Active {
          return true, Some(SecondActive);
        }
        datasets := datasets[d := datasets[d].(status := to)];
      }
    }

    method FinishDatasetValidation(id: string) returns (result: Result<Status, Error>)
      modifies this
      ensures Now() == Next(old(Now()), FinishStep(id))
      ensures result.Failure? ==> Outcome(old(Now()), FinishStep(id)) == Failure(result.error) && Now() == old(Now())
      ensures result.Success? ==>
                && id in validations && validations == old(validations) && validations[id].dataset in datasets
                && result.value == (if validations[id].passed then Validated else Failed)
                && datasets == old(datasets)[validations[id].dataset :=
                                 old(datasets[validations[id].dataset]).(status := result.value)]
    {
      if id !in validations {
        return Failure(ValidationRunNotFound);
      }
      var v := validations[id];
      if v.dataset !in datasets || datasets[v.dataset].status != Building {
        return Failure(DatasetNotBuilding);
      }
      if datasets[v.dataset].manifestHash != v.manifestHash {
        return Failure(ManifestMismatch);
      }
      var next := if v.passed then Validated else Failed;
      var found, error := UpdateStatus(v.dataset, Building, next);
      assert found && error.None?;
      result := Success(next);
    }

    method RecordDatasetReadiness(d: string, component: string, id: string, componentHash: string)
        returns (error: Option<Error>)
      modifies this
      ensures Now() == Next(old(Now()), ReadinessStep(d, component, id, componentHash))
      ensures error == (var r := RecordReadiness(old(Now()), d, component, id, componentHash); if r.Failure?
          then Some(r.error) else None)
    {
      if id !in validations || validations[id].dataset != d || !validations[id].passed {
        return Some(SuccessfulValidationRequired);
      }
      if d !in datasets {
        return Some(DatasetNotFound);
      }
      if datasets[d].status != Building && datasets[d].status != Validated {
        return Some(DatasetNotReadyForComponent);
      }
      if validations[id].manifestHash != datasets[d].manifestHash {
        return Some(ManifestMismatch);
      }
      if component !in COMPONENTS {
        return Some(ComponentCheck);
      }
      if !IsHash(componentHash) {
        return Some(HashCheck);
      }
      if (d, component) in readiness {
        return Some(DuplicateKey);
      }
      readiness := readiness[(d, component) := Readiness(id, datasets[d].manifestHash)];
      error := None;
    }

    /** Retires the prior dataset, activates this one and names it in the singleton row; an error undoes all of it. */
    method ActivateDataset(d: string) returns (error: Option<Error>)
      modifies this
      ensures Now() == Next(old(Now()), ActivateStep(d))
      ensures error == (if Activate(old(Now()), d).Failure? then Some(Activate(old(Now()), d).error) else None)
    {
      hide MayFollow, ReadyComponents;
      var before := datasets;
      if d !in datasets {
        return Some(DatasetNotFound);
      }
      if datasets[d].cutoff != CURRENT_CUTOFF {
        return Some(LegacyDataset);
      }
      if datasets[d].status != Validated {
        return Some(DatasetNotValidated);
      }
      if |ReadyComponents(Now(), d)| != 4 {
        return Some(ReadinessIncomplete);
      }
      if active.Some? && active.value != d {
        var _, refused := UpdateStatus(active.value, Active, Retired);
        if refused.Some? {
          return refused;
        }
      }
      var found, refused := UpdateStatus(d, Validated, Active);
      if !found || refused.Some? {
        datasets := before;
        return if found then refused else Some(ActivationConflict);
      }
      active := Some(d);
      error := None;
    }
  }
}
