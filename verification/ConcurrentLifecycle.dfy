/** The functions of a dataset's life in concurrent transactions: every call takes the row locks and advisory
    locks that its statements take, in their order, and keeps them until its transaction ends. */
module ConcurrentLifecycle {
  import opened DatasetStatus
  import opened Wrappers
  import D = DatasetLifecycle
  import L = RequestLedger

  // ----- transactions and locks -----

  /** What can be locked: the advisory locks of activation and of a request run, the singleton row, rows, and
      the keys of rows about to be inserted. */
  datatype Resource =
    | Activation | RunKey(run: string)
    | Singleton | DatasetRow(dataset: string) | ValidationRow(id: string) | ReadinessRow(key: (string, string))

  datatype Want = Shared(resource: Resource) | Exclusive(resource: Resource)

  /** The rows that an open transaction has written. */
  datatype Txn = Txn(datasets: map<string, D.Dataset>, validations: map<string, D.Validation>,
                     readiness: map<(string, string), D.Readiness>, active: Option<string>, runs: map<string, L.Run>)

  datatype State = State(tables: D.Tables, runs: map<string, L.Run>, txns: map<nat, Txn>,
                         shared: set<(Resource, nat)>, exclusive: map<Resource, nat>)

  /** A call of one of the functions on datasets, or of the one that starts a request run. */
  datatype Call = OnDatasets(step: D.Step) | StartRun(run: L.Run)

  datatype Step = Begin(txn: nat) | Run(txn: nat, call: Call) | Commit(txn: nat) | Rollback(txn: nat)

  function Merged(c: D.Tables, o: Txn): D.Tables {
    D.Tables(c.datasets + o.datasets, c.validations + o.validations, c.readiness + o.readiness,
             if o.active.Some? then o.active else c.active)
  }

  /** What a transaction sees: the latest committed rows under its own. */
  function View(s: State, t: nat): D.Tables
    requires t in s.txns
  {
    Merged(s.tables, s.txns[t])
  }

  function SeenRuns(s: State, t: nat): map<string, L.Run>
    requires t in s.txns
  {
    s.runs + s.txns[t].runs
  }

  predicate Blocked(s: State, t: nat, want: Want) {
    || (want.resource in s.exclusive && s.exclusive[want.resource] != t)
    || (want.Exclusive? && exists l :: l in s.shared && l.0 == want.resource && l.1 != t)
  }

  function Take(s: State, t: nat, want: Want): State {
    match want
    case Shared(r) => s.(shared := s.shared + {(r, t)})
    case Exclusive(r) => s.(exclusive := s.exclusive[r := t])
  }

  /** Takes locks in order up to the first that another transaction holds. */
  function LockAll(s: State, t: nat, wants: seq<Want>): (State, bool)
    decreases |wants|
  {
    if wants == [] then (s, true)
    else if Blocked(s, t, wants[0]) then (s, false)
    else LockAll(Take(s, t, wants[0]), t, wants[1..])
  }

  function Release(s: State, t: nat): State {
    s.(txns := s.txns - {t},
       shared := (set l | l in s.shared && l.1 != t),
       exclusive := (map r | r in s.exclusive && s.exclusive[r] != t :: s.exclusive[r]))
  }

  // ----- calls -----

  /** The locks that a call takes, in order, given what its transaction sees. */
  function Wants(view: D.Tables, runs: map<string, L.Run>, call: Call): seq<Want> {
    match call
    case OnDatasets(CreateStep(d, _, _, _)) =>
      if D.Outcome(view, call.step).Success? then [Exclusive(DatasetRow(d))] else []
    case OnDatasets(ValidationStep(id, d, _, _)) =>
      (if d in view.datasets then [Shared(DatasetRow(d))] else [])
      + (if D.Outcome(view, call.step).Success? then [Exclusive(ValidationRow(id))] else [])
    case OnDatasets(FinishStep(id)) =>
      if id !in view.validations then []
      else [Exclusive(ValidationRow(id)), Exclusive(DatasetRow(view.validations[id].dataset))]
    case OnDatasets(ReadinessStep(d, c, id, _)) =>
      if id !in view.validations || view.validations[id].dataset != d then []
      else
        [Shared(ValidationRow(id))]
        + (if view.validations[id].passed && d in view.datasets then [Shared(DatasetRow(d))] else [])
        + (if D.Outcome(view, call.step).Success? then [Exclusive(ReadinessRow((d, c)))] else [])
    case OnDatasets(ActivateStep(d)) =>
      [Exclusive(Activation), Exclusive(Singleton)]
      + (if d in view.datasets then [Exclusive(DatasetRow(d))] else [])
      + (if D.Activate(view, d).Success? && view.active.Some? then [Exclusive(DatasetRow(view.active.value))] else [])
    case StartRun(run) =>
      [Exclusive(RunKey(run.scope.runId))]
      + (if run.scope.runId in runs then []
         else if run.scope.datasetVersion !in view.datasets then [Shared(Singleton)]
         else [Shared(Singleton), Shared(DatasetRow(run.scope.datasetVersion))])
  }

  /** The active dataset with its cutoff, as a starting run reads it. */
  function ActiveDataset(view: D.Tables): Option<(string, string)> {
    if view.active.Some? && view.active.value in view.datasets && view.datasets[view.active.value].status == Active
    then Some((view.active.value, view.datasets[view.active.value].cutoff))
    else None
  }

  /** The rows of `next` that differ from committed rows, or that had been written before. */
  function Written<K, V(==)>(committed: map<K, V>, before: map<K, V>, next: map<K, V>): map<K, V> {
    map k | k in next && (k in before || k !in committed || next[k] != committed[k]) :: next[k]
  }

  /** What a transaction has written over committed tables `c` when it comes to see `next`. */
  function Diff(c: D.Tables, o: Txn, next: D.Tables): Txn {
    Txn(Written(c.datasets, o.datasets, next.datasets),
        Written(c.validations, o.validations, next.validations),
        Written(c.readiness, o.readiness, next.readiness),
        if o.active.Some? || next.active != c.active then next.active else None,
        o.runs)
  }

  function WithRun(s: State, t: nat, run: L.Run): State
    requires t in s.txns
  {
    s.(txns := s.txns[t := s.txns[t].(runs := s.txns[t].runs[run.scope.runId := run])])
  }

  /** What a call does once it holds its locks; an error ends its transaction. */
  function Perform(s: State, t: nat, call: Call): State
    requires t in s.txns
  {
    match call
    case OnDatasets(step) =>
      var outcome := D.Outcome(View(s, t), step);
      if outcome.Failure? then Release(s, t)
      else s.(txns := s.txns[t := Diff(s.tables, s.txns[t], outcome.value)])
    case StartRun(run) =>
      if run.ending.Some? then s
      else
        var started := L.Start(L.EMPTY.(runs := SeenRuns(s, t)), run, ActiveDataset(View(s, t)));
        if started.Failure? then Release(s, t)
        else if run.scope.runId in SeenRuns(s, t) then s
        else WithRun(s, t, run)
  }

  /** A call that must wait keeps the locks that it has taken and changes no row. */
  function Next(s: State, step: Step): State {
    if step.Begin? then
      if step.txn in s.txns then s else s.(txns := s.txns[step.txn := Txn(map[], map[], map[], None, map[])])
    else if step.txn !in s.txns then s
    else
      var t := step.txn;
      match step
      case Run(_, call) =>
        var (locked, ok) := LockAll(s, t, Wants(View(s, t), SeenRuns(s, t), call));
        if ok && t in locked.txns then Perform(locked, t, call) else locked
      case Commit(_) => Release(s.(tables := View(s, t), runs := SeenRuns(s, t)), t)
      case Rollback(_) => Release(s, t)
  }

  const FRESH := State(D.FRESH, map[], map[], {}, map[])

  /** The state after any interleaving of steps on a fresh database. */
  function After(steps: seq<Step>): State {
    if steps == [] then FRESH else Next(After(steps[..|steps| - 1]), steps[|steps| - 1])
  }

  // ----- locks -----

  ghost predicate Holds(s: State, t: nat, want: Want) {
    || (want.resource in s.exclusive && s.exclusive[want.resource] == t)
    || (want.Shared? && (want.resource, t) in s.shared)
  }

  /** Only the exclusive holder may also share. */
  ghost predicate LocksSound(s: State) {
    forall l | l in s.shared && l.0 in s.exclusive :: s.exclusive[l.0] == l.1
  }

  ghost predicate SameRows(s: State, t: State) {
    s.tables == t.tables && s.runs == t.runs && s.txns == t.txns
  }

  ghost predicate KeepsLocksOf(s: State, after: State, t: nat) {
    forall want | Holds(s, t, want) :: Holds(after, t, want)
  }

  ghost predicate KeepsLocks(s: State, after: State) {
    forall t :: KeepsLocksOf(s, after, t)
  }

  lemma {:induction false} TakeKeepsLocks(s: State, t: nat, want: Want)
    requires LocksSound(s) && !Blocked(s, t, want)
    ensures LocksSound(Take(s, t, want)) && KeepsLocks(s, Take(s, t, want)) && Holds(Take(s, t, want), t, want)
  {}

  lemma {:induction false} LockAllLocks(s: State, t: nat, wants: seq<Want>)
    requires LocksSound(s)
    ensures var (locked, ok) := LockAll(s, t, wants);
      && LocksSound(locked) && SameRows(s, locked) && KeepsLocks(s, locked)
      && (ok ==> forall want | want in wants :: Holds(locked, t, want))
    decreases |wants|
  {
    if wants != [] && !Blocked(s, t, wants[0]) {
      var taken := Take(s, t, wants[0]);
      TakeKeepsLocks(s, t, wants[0]);
      LockAllLocks(taken, t, wants[1..]);
      hide LocksSound, Holds, Blocked;
      var locked := LockAll(s, t, wants).0;
      forall u ensures KeepsLocksOf(s, locked, u) {
        assert KeepsLocksOf(s, taken, u) && KeepsLocksOf(taken, locked, u);
      }
      assert KeepsLocksOf(taken, locked, t);
    }
  }

  /** A resource that one transaction holds exclusively is not held by another. */
  lemma {:induction false} Conflict(s: State, t: nat, u: nat, want: Want)
    requires LocksSound(s) && Holds(s, t, Exclusive(want.resource)) && Holds(s, u, want)
    ensures t == u
  {}

  // ----- overlays -----

  /** A committed dataset goes on as itself, and does not go back once it has been active. */
  ghost predicate Continues(before: D.Dataset, after: D.Dataset) {
    && after == before.(status := after.status)
    && (before.status in {Active, Retired} ==> after.status in {Active, Retired})
  }

  /** A transaction's rows fit the committed tables: inserted keys are new, an active dataset is named, and who
      changes the dataset that is active names another. */
  ghost predicate Own(c: D.Tables, o: Txn) {
    && (forall d | d in o.datasets ::
          && (o.datasets[d].status == Active ==> o.active == Some(d))
          && (d in c.datasets ==> Continues(c.datasets[d], o.datasets[d]))
          && (d in c.datasets && c.datasets[d].status == Active ==> o.active.Some?))
    && (forall id | id in o.validations :: id !in c.validations)
    && (forall k | k in o.readiness :: k !in c.readiness)
  }

  /** Two transactions have written no row in common, and at most one of them activates. */
  ghost predicate Apart(a: Txn, b: Txn) {
    && (forall d | d in a.datasets :: d !in b.datasets)
    && (forall id | id in a.validations :: id !in b.validations)
    && (forall k | k in a.readiness :: k !in b.readiness)
    && !(a.active.Some? && b.active.Some?)
  }

  lemma {:induction false} FirstReadiness(c: D.Tables, a: Txn, b: Txn, d: string, k: string)
    requires Own(c, a) && Own(c, b) && Apart(a, b)
    requires (d, k) in Merged(c, a).readiness && D.ReadinessSound(Merged(c, a), d, k)
    ensures D.ReadinessSound(Merged(Merged(c, a), b), d, k)
  {}

  lemma {:induction false} SecondReadiness(c: D.Tables, a: Txn, b: Txn, d: string, k: string)
    requires Own(c, a) && Own(c, b) && Apart(a, b)
    requires (d, k) in b.readiness && D.ReadinessSound(Merged(c, b), d, k)
    ensures D.ReadinessSound(Merged(Merged(c, a), b), d, k)
  {}

  lemma {:induction false} OthersReadiness(c: D.Tables, a: Txn, b: Txn, d: string, k: string)
    requires D.Sound(Merged(c, a)) && D.Sound(Merged(c, b)) && Own(c, a) && Own(c, b) && Apart(a, b)
    requires (d, k) in Merged(Merged(c, a), b).readiness
    ensures D.ReadinessSound(Merged(Merged(c, a), b), d, k)
  {
    hide Own, Apart, D.ReadinessSound, D.ActiveSound;
    if (d, k) in b.readiness {
      SecondReadiness(c, a, b, d, k);
    } else {
      FirstReadiness(c, a, b, d, k);
    }
  }

  lemma {:induction false} OthersActive(c: D.Tables, a: Txn, b: Txn, d: string)
    requires D.Sound(c) && D.Sound(Merged(c, a)) && D.Sound(Merged(c, b)) && Own(c, a) && Own(c, b) && Apart(a, b)
    requires d in Merged(Merged(c, a), b).datasets
    ensures D.ActiveSound(Merged(Merged(c, a), b), d)
  {
    if d in b.datasets {
      assert D.ActiveSound(Merged(c, b), d);
    } else {
      assert D.ActiveSound(Merged(c, a), d);
      if Merged(c, a).datasets[d].status == Active && b.active.Some? {
        assert d in c.datasets && d !in a.datasets;
        assert D.ActiveSound(Merged(c, b), d);
      }
    }
  }

  /** More validations and the same manifest keep what is known of a dataset's status. */
  lemma {:induction false} StatusLater(before: D.Tables, after: D.Tables, d: string)
    requires d in before.datasets && d in after.datasets && after.datasets[d] == before.datasets[d]
    requires forall id | id in before.validations ::
               id in after.validations && after.validations[id] == before.validations[id]
    requires D.StatusSound(before, d)
    ensures D.StatusSound(after, d)
  {
    assert forall passed | D.HasValidation(before, d, passed) :: D.HasValidation(after, d, passed);
  }

  lemma {:induction false} OthersStatus(c: D.Tables, a: Txn, b: Txn, d: string)
    requires D.Sound(Merged(c, a)) && D.Sound(Merged(c, b)) && Own(c, a) && Own(c, b) && Apart(a, b)
    requires d in Merged(Merged(c, a), b).datasets
    ensures D.StatusSound(Merged(Merged(c, a), b), d)
  {
    hide D.StatusSound, D.ActiveSound, D.ReadinessSound;
    if d in b.datasets {
      StatusLater(Merged(c, b), Merged(Merged(c, a), b), d);
    } else {
      StatusLater(Merged(c, a), Merged(Merged(c, a), b), d);
    }
  }

  lemma {:induction false} OthersSingleton(c: D.Tables, a: Txn, b: Txn)
    requires D.Sound(c) && D.Sound(Merged(c, a)) && D.Sound(Merged(c, b)) && Own(c, a) && Own(c, b) && Apart(a, b)
    ensures var m := Merged(Merged(c, a), b);
      m.active.Some? ==> m.active.value in m.datasets && m.datasets[m.active.value].status == Active
  {
    hide D.ReadinessSound, D.ActiveSound, D.StatusSound;
  }

  /** What one transaction publishes leaves what another sees sound. */
  lemma {:induction false} PublishedFits(c: D.Tables, a: Txn, b: Txn)
    requires D.Sound(c) && D.Sound(Merged(c, a)) && D.Sound(Merged(c, b)) && Own(c, a) && Own(c, b) && Apart(a, b)
    ensures D.Sound(Merged(Merged(c, a), b)) && Own(Merged(c, a), b)
  {
    var m := Merged(Merged(c, a), b);
    forall d, k | (d, k) in m.readiness ensures D.ReadinessSound(m, d, k) {
      OthersReadiness(c, a, b, d, k);
    }
    forall d | d in m.datasets ensures D.ActiveSound(m, d) {
      OthersActive(c, a, b, d);
    }
    forall d | d in m.datasets ensures D.StatusSound(m, d) {
      OthersStatus(c, a, b, d);
    }
    OthersSingleton(c, a, b);
  }

  // ----- a transaction's own steps -----

  /** Rows only ever gain: no key disappears, inserted rows stay as they are, and datasets go on. */
  ghost predicate Grows(before: D.Tables, after: D.Tables) {
    && (forall d | d in before.datasets :: d in after.datasets && Continues(before.datasets[d], after.datasets[d]))
    && (forall id | id in before.validations ::
        id in after.validations && after.validations[id] == before.validations[id])
    && (forall k | k in before.readiness :: k in after.readiness && after.readiness[k] == before.readiness[k])
    && (before.active.Some? ==> after.active.Some?)
  }

  lemma {:induction false} ActivationGrows(view: D.Tables, d: string)
    requires D.Sound(view) && D.Activate(view, d).Success?
    ensures Grows(view, D.Activate(view, d).value)
  {
    D.ActivationIsExact(view, d);
    hide D.Activate, D.Sound;
  }

  lemma {:induction false} OutcomeGrows(view: D.Tables, step: D.Step)
    requires D.Sound(view) && D.Outcome(view, step).Success?
    ensures Grows(view, D.Outcome(view, step).value)
  {
    if step.ActivateStep? {
      ActivationGrows(view, step.dataset);
    }
    hide D.Activate, D.Sound;
  }

  lemma {:induction false} WrittenIsOverlay<K, V>(committed: map<K, V>, before: map<K, V>, next: map<K, V>)
    requires forall k | k in committed :: k in next
    ensures committed + Written(committed, before, next) == next
  {}

  lemma {:induction false} DiffIsOverlay(c: D.Tables, o: Txn, next: D.Tables)
    requires Grows(Merged(c, o), next)
    ensures Merged(c, Diff(c, o, next)) == next
  {
    WrittenIsOverlay(c.datasets, o.datasets, next.datasets) by {
      assert forall d | d in c.datasets :: d in Merged(c, o).datasets;
    }
    WrittenIsOverlay(c.validations, o.validations, next.validations) by {
      assert forall id | id in c.validations :: id in Merged(c, o).validations;
    }
    WrittenIsOverlay(c.readiness, o.readiness, next.readiness) by {
      assert forall k | k in c.readiness :: k in Merged(c, o).readiness;
    }
    hide Written;
  }

  /** Only an activation makes a dataset active or renames the singleton row; who touches the active dataset
      activates another. */
  lemma {:induction false} StatusOutcome(view: D.Tables, step: D.Step, d: string)
    requires D.Sound(view) && D.Outcome(view, step).Success? && d in D.Outcome(view, step).value.datasets
    ensures var next := D.Outcome(view, step).value;
      && (next.datasets[d].status == Active ==> next.active == Some(d))
      && (next.active == view.active || (step.ActivateStep? && next.active == Some(step.dataset)))
      && (d in view.datasets && next.datasets[d] != view.datasets[d] && view.datasets[d].status == Active ==>
          next.active != view.active)
  {
    D.NextKeepsSound(view, step);
    assert D.ActiveSound(D.Outcome(view, step).value, d);
    if step.ActivateStep? {
      D.ActivationIsExact(view, step.dataset);
      hide D.Activate;
      assert forall e | e in view.datasets :: D.ActiveSound(view, e);
    }
  }

  /** A successful call leaves its transaction with rows that fit. */
  lemma {:induction false} OutcomeFits(c: D.Tables, o: Txn, step: D.Step, d: string)
    requires D.Sound(c) && D.Sound(Merged(c, o)) && Own(c, o) && D.Outcome(Merged(c, o), step).Success?
    requires d in Diff(c, o, D.Outcome(Merged(c, o), step).value).datasets
    ensures var after := Diff(c, o, D.Outcome(Merged(c, o), step).value);
      && (after.datasets[d].status == Active ==> after.active == Some(d))
      && (d in c.datasets ==> Continues(c.datasets[d], after.datasets[d]))
      && (d in c.datasets && c.datasets[d].status == Active ==> after.active.Some?)
  {
    var view := Merged(c, o);
    var next := D.Outcome(view, step).value;
    OutcomeGrows(view, step);
    StatusOutcome(view, step, d);
    assert next.active == view.active || next.active.Some?;
    hide D.Outcome, D.Sound;
    StatusFits(c, o, next, d);
  }

  lemma {:induction false} StatusFits(c: D.Tables, o: Txn, next: D.Tables, d: string)
    requires Own(c, o) && Grows(Merged(c, o), next) && d in Diff(c, o, next).datasets
    requires next.datasets[d].status == Active ==> next.active == Some(d)
    requires Merged(c, o).active == Some(d) ==> d in Merged(c, o).datasets && Merged(c, o).datasets[d].status == Active
    requires d in Merged(c, o).datasets && next.datasets[d] != Merged(c, o).datasets[d]
             && Merged(c, o).datasets[d].status == Active ==>
               next.active != Merged(c, o).active
    requires next.active == Merged(c, o).active || next.active.Some?
    ensures var after := Diff(c, o, next);
      && (after.datasets[d].status == Active ==> after.active == Some(d))
      && (d in c.datasets ==> Continues(c.datasets[d], after.datasets[d]))
      && (d in c.datasets && c.datasets[d].status == Active ==> after.active.Some?)
  {}

  /** After a successful call its transaction sees what the call makes of what it saw, and its rows fit. */
  lemma {:induction false} OutcomeIsOwn(c: D.Tables, o: Txn, step: D.Step)
    requires D.Sound(c) && D.Sound(Merged(c, o)) && Own(c, o) && D.Outcome(Merged(c, o), step).Success?
    ensures var next := D.Outcome(Merged(c, o), step).value;
      Merged(c, Diff(c, o, next)) == next && D.Sound(next) && Own(c, Diff(c, o, next))
  {
    hide D.Sound, Grows;
    var next := D.Outcome(Merged(c, o), step).value;
    OutcomeGrows(Merged(c, o), step);
    DiffIsOverlay(c, o, next);
    D.NextKeepsSound(Merged(c, o), step);
    forall d | d in Diff(c, o, next).datasets
      ensures Diff(c, o, next).datasets[d].status == Active ==> Diff(c, o, next).active == Some(d)
      ensures d in c.datasets ==> Continues(c.datasets[d], Diff(c, o, next).datasets[d])
      ensures d in c.datasets && c.datasets[d].status == Active ==> Diff(c, o, next).active.Some?
    {
      OutcomeFits(c, o, step, d);
    }
    hide D.Outcome, Merged, Continues;
    InsertedAreNew(c, o, next);
  }

  lemma {:induction false} InsertedAreNew(c: D.Tables, o: Txn, next: D.Tables)
    requires Grows(Merged(c, o), next) && Own(c, o)
    ensures forall id | id in Diff(c, o, next).validations :: id !in c.validations
    ensures forall k | k in Diff(c, o, next).readiness :: k !in c.readiness
  {
    hide Continues;
    assert forall id | id in c.validations ::
             id in Merged(c, o).validations && next.validations[id] == c.validations[id];
    assert forall k | k in c.readiness :: k in Merged(c, o).readiness && next.readiness[k] == c.readiness[k];
  }

  // ----- every reachable state -----

  /** The run's dataset has been active: it has the run's cutoff, which is the current one, and all components. */
  ghost predicate Backed(view: D.Tables, run: L.Run) {
    var d := run.scope.datasetVersion;
    && d in view.datasets && view.datasets[d].status in {Active, Retired}
    && view.datasets[d].cutoff == run.scope.cutoffDate == D.CURRENT_CUTOFF
    && forall c | c in D.COMPONENTS :: (d, c) in view.readiness
  }

  /** Every row that a transaction has written is locked by it. */
  ghost predicate Covered(s: State, t: nat)
    requires t in s.txns
  {
    var o := s.txns[t];
    && (forall d | d in o.datasets :: Holds(s, t, Exclusive(DatasetRow(d))))
    && (forall id | id in o.validations :: Holds(s, t, Exclusive(ValidationRow(id))))
    && (forall k | k in o.readiness :: Holds(s, t, Exclusive(ReadinessRow(k))))
    && (forall id | id in o.runs :: Holds(s, t, Exclusive(RunKey(id))) && Holds(s, t, Shared(Singleton)))
    && (o.active.Some? ==> Holds(s, t, Exclusive(Activation)) && Holds(s, t, Exclusive(Singleton)))
  }

  /** A run that a transaction has started is new and backed; unless the transaction itself activates, its
      dataset is the one that is active in the committed tables. */
  ghost predicate RunsFit(s: State, t: nat)
    requires t in s.txns
  {
    forall id | id in s.txns[t].runs ::
      && id !in s.runs
      && Backed(View(s, t), s.txns[t].runs[id])
      && (s.txns[t].active.None? ==> s.tables.active == Some(s.txns[t].runs[id].scope.datasetVersion))
  }

  ghost predicate Fits(s: State, t: nat)
    requires t in s.txns
  {
    D.Sound(View(s, t)) && Own(s.tables, s.txns[t]) && Covered(s, t) && RunsFit(s, t)
  }

  ghost predicate Sound(s: State) {
    && LocksSound(s) && D.Sound(s.tables)
    && (forall id | id in s.runs :: Backed(s.tables, s.runs[id]))
    && (forall t | t in s.txns :: Fits(s, t))
  }

  lemma {:induction false} BackedLater(before: D.Tables, after: D.Tables, run: L.Run)
    requires Backed(before, run) && Grows(before, after)
    ensures Backed(after, run)
  {}

  /** What fits goes on to fit while its rows, the committed ones and its locks stay. */
  lemma {:induction false} SameFits(s: State, after: State, t: nat)
    requires t in s.txns && t in after.txns && after.txns[t] == s.txns[t] && after.tables == s.tables
             && after.runs == s.runs
    requires KeepsLocksOf(s, after, t) && Fits(s, t)
    ensures Fits(after, t)
  {
    hide Holds, D.Sound, Own, Backed, Merged;
  }

  lemma {:induction false} ReleaseKeepsSound(s: State, t: nat)
    requires LocksSound(s) && D.Sound(s.tables)
    requires forall id | id in s.runs :: Backed(s.tables, s.runs[id])
    requires forall u | u in s.txns && u != t :: Fits(s, u)
    ensures Sound(Release(s, t))
  {
    forall u | u in Release(s, t).txns ensures Fits(Release(s, t), u) {
      SameFits(s, Release(s, t), u);
    }
    hide Fits, D.Sound, Backed;
  }

  // ----- calls -----

  /** What a call changes, it has locked. */
  ghost predicate ChangesWanted(view: D.Tables, next: D.Tables, wants: seq<Want>) {
    && (forall d | d in next.datasets && (d !in view.datasets || next.datasets[d] != view.datasets[d]) ::
        Exclusive(DatasetRow(d)) in wants)
    && (forall id | id in next.validations && id !in view.validations :: Exclusive(ValidationRow(id)) in wants)
    && (forall k | k in next.readiness && k !in view.readiness :: Exclusive(ReadinessRow(k)) in wants)
    && (next.active != view.active ==> Exclusive(Activation) in wants && Exclusive(Singleton) in wants)
  }

  lemma {:induction false} ActivationIsWanted(view: D.Tables, runs: map<string, L.Run>, d: string)
    requires D.Sound(view) && D.Activate(view, d).Success?
    ensures ChangesWanted(view, D.Activate(view, d).value, Wants(view, runs, OnDatasets(D.ActivateStep(d))))
  {
    D.ActivationIsExact(view, d);
    var wants := Wants(view, runs, OnDatasets(D.ActivateStep(d)));
    assert wants[0] == Exclusive(Activation) && wants[1] == Exclusive(Singleton)
           && wants[2] == Exclusive(DatasetRow(d));
    if view.active.Some? {
      assert wants[3] == Exclusive(DatasetRow(view.active.value));
    }
    hide D.Activate, D.Sound, Wants;
  }

  lemma {:induction false} ChangesAreWanted(view: D.Tables, runs: map<string, L.Run>, step: D.Step)
    requires D.Sound(view) && D.Outcome(view, step).Success?
    ensures ChangesWanted(view, D.Outcome(view, step).value, Wants(view, runs, OnDatasets(step)))
  {
    if step.ActivateStep? {
      ActivationIsWanted(view, runs, step.dataset);
      hide D.Activate, D.Sound, Wants, ChangesWanted;
    } else {
      hide D.Activate, D.Sound;
    }
  }

  /** A transaction holds locks on all that it has written once it holds those that its call wants. */
  lemma {:induction false} WritesAreCovered(s: State, t: nat, next: D.Tables, wants: seq<Want>)
    requires t in s.txns && Covered(s, t) && ChangesWanted(View(s, t), next, wants)
    requires Own(s.tables, s.txns[t]) && Grows(View(s, t), next)
    requires forall want | want in wants :: Holds(s, t, want)
    ensures Covered(s.(txns := s.txns[t := Diff(s.tables, s.txns[t], next)]), t)
  {
    var o := s.txns[t];
    var diff := Diff(s.tables, o, next);
    var after := s.(txns := s.txns[t := diff]);
    assert forall want :: Holds(after, t, want) == Holds(s, t, want);
    InsertedAreNew(s.tables, o, next);
    hide Holds, Own, Grows;
    forall d | d in diff.datasets ensures Holds(s, t, Exclusive(DatasetRow(d))) {
      assert d !in o.datasets ==> d !in View(s, t).datasets || next.datasets[d] != View(s, t).datasets[d];
    }
    forall id | id in diff.validations ensures Holds(s, t, Exclusive(ValidationRow(id))) {
      assert id !in o.validations ==> id !in View(s, t).validations;
    }
    forall k | k in diff.readiness ensures Holds(s, t, Exclusive(ReadinessRow(k))) {
      assert k !in o.readiness ==> k !in View(s, t).readiness;
    }
  }

  lemma {:induction false} RunsStayFit(s: State, t: nat, next: D.Tables)
    requires t in s.txns && RunsFit(s, t) && Grows(View(s, t), next)
    requires Merged(s.tables, Diff(s.tables, s.txns[t], next)) == next
    ensures RunsFit(s.(txns := s.txns[t := Diff(s.tables, s.txns[t], next)]), t)
  {
    var o := s.txns[t];
    forall id | id in o.runs ensures Backed(next, o.runs[id]) {
      BackedLater(View(s, t), next, o.runs[id]);
    }
    hide Backed, Grows, Merged, Written;
  }

  lemma {:induction false} OutcomeKeepsFit(s: State, t: nat, step: D.Step)
    requires D.Sound(s.tables) && t in s.txns && Fits(s, t) && D.Outcome(View(s, t), step).Success?
    requires forall want | want in Wants(View(s, t), SeenRuns(s, t), OnDatasets(step)) :: Holds(s, t, want)
    ensures Fits(Perform(s, t, OnDatasets(step)), t)
  {
    hide D.Outcome, D.Sound, Wants, Own, Merged, Diff, Covered, RunsFit, Holds, Grows, ChangesWanted;
    var next := D.Outcome(View(s, t), step).value;
    OutcomeIsOwn(s.tables, s.txns[t], step);
    OutcomeGrows(View(s, t), step);
    ChangesAreWanted(View(s, t), SeenRuns(s, t), step);
    WritesAreCovered(s, t, next, Wants(View(s, t), SeenRuns(s, t), OnDatasets(step)));
    RunsStayFit(s, t, next);
  }

  // ----- starting a run -----

  /** A run starts on the active dataset only, which then backs it. */
  lemma {:induction false} StartIsBacked(view: D.Tables, runs: map<string, L.Run>, run: L.Run)
    requires D.Sound(view) && run.ending.None? && run.scope.runId !in runs
    requires L.Start(L.EMPTY.(runs := runs), run, ActiveDataset(view)).Success?
    ensures Backed(view, run) && view.active == Some(run.scope.datasetVersion)
  {
    assert D.ActiveSound(view, run.scope.datasetVersion);
  }

  lemma {:induction false} NewRunIsCovered(s: State, t: nat, run: L.Run)
    requires t in s.txns && Covered(s, t)
    requires Holds(s, t, Exclusive(RunKey(run.scope.runId))) && Holds(s, t, Shared(Singleton))
    ensures Covered(WithRun(s, t, run), t)
  {
    assert KeepsLocksOf(s, WithRun(s, t, run), t);
    hide Holds;
  }

  lemma {:induction false} NewRunFits(s: State, t: nat, run: L.Run)
    requires t in s.txns && Fits(s, t) && run.scope.runId !in SeenRuns(s, t)
    requires Holds(s, t, Exclusive(RunKey(run.scope.runId))) && Holds(s, t, Shared(Singleton))
    requires Backed(View(s, t), run) && View(s, t).active == Some(run.scope.datasetVersion)
    ensures Fits(WithRun(s, t, run), t)
  {
    hide D.Sound, Own, Backed, Covered, Holds;
    var after := WithRun(s, t, run);
    NewRunIsCovered(s, t, run);
    OwnIgnoresRuns(s.tables, s.txns[t], after.txns[t]);
    assert View(after, t) == View(s, t);
  }

  lemma {:induction false} OwnIgnoresRuns(c: D.Tables, o: Txn, other: Txn)
    requires Own(c, o) && other == o.(runs := other.runs)
    ensures Own(c, other)
  {}

  lemma {:induction false} StartKeepsFit(s: State, t: nat, run: L.Run)
    requires t in s.txns && Fits(s, t)
    requires forall want | want in Wants(View(s, t), SeenRuns(s, t), StartRun(run)) :: Holds(s, t, want)
    ensures var after := Perform(s, t, StartRun(run)); after == Release(s, t) || (t in after.txns && Fits(after, t))
  {
    hide L.Start, Own, Covered, RunsFit, Holds, D.Sound;
    var id, view := run.scope.runId, View(s, t);
    if run.ending.None? && id !in SeenRuns(s, t)
        && L.Start(L.EMPTY.(runs := SeenRuns(s, t)), run, ActiveDataset(view)).Success? {
      StartIsBacked(view, SeenRuns(s, t), run);
      var wants := Wants(view, SeenRuns(s, t), StartRun(run));
      assert wants[0] == Exclusive(RunKey(id)) && wants[1] == Shared(Singleton);
      hide Wants, ActiveDataset, Backed, Release, Merged;
      NewRunFits(s, t, run);
    }
  }

  // ----- publishing -----

  /** Open transactions have no row in common. */
  lemma {:induction false} OpenAreApart(s: State, t: nat, u: nat)
    requires LocksSound(s) && t in s.txns && u in s.txns && t != u && Covered(s, t) && Covered(s, u)
    ensures Apart(s.txns[t], s.txns[u])
    ensures forall id | id in s.txns[t].runs :: id !in s.txns[u].runs
    ensures s.txns[t].active.Some? ==> s.txns[u].runs == map[]
  {
    forall want: Want | Holds(s, t, Exclusive(want.resource)) ensures !Holds(s, u, want) {
      if Holds(s, u, want) {
        Conflict(s, t, u, want);
      }
    }
    hide Holds, LocksSound;
    forall d | d in s.txns[t].datasets ensures d !in s.txns[u].datasets {
      assert !Holds(s, u, Exclusive(DatasetRow(d)));
    }
    forall id | id in s.txns[t].validations ensures id !in s.txns[u].validations {
      assert !Holds(s, u, Exclusive(ValidationRow(id)));
    }
    forall k | k in s.txns[t].readiness ensures k !in s.txns[u].readiness {
      assert !Holds(s, u, Exclusive(ReadinessRow(k)));
    }
    forall id | id in s.txns[t].runs ensures id !in s.txns[u].runs {
      assert !Holds(s, u, Exclusive(RunKey(id)));
    }
    if s.txns[t].active.Some? {
      assert !Holds(s, u, Exclusive(Activation)) && !Holds(s, u, Shared(Singleton));
    }
  }

  lemma {:induction false} OwnGrows(c: D.Tables, o: Txn)
    requires Own(c, o)
    ensures Grows(c, Merged(c, o))
  {}

  lemma {:induction false} MergedGrows(c: D.Tables, a: Txn, b: Txn)
    requires Grows(c, Merged(c, a)) && Apart(a, b)
    ensures Grows(Merged(c, b), Merged(Merged(c, a), b))
  {}

  function Publish(s: State, t: nat): State
    requires t in s.txns
  {
    s.(tables := View(s, t), runs := SeenRuns(s, t))
  }

  lemma {:induction false} OthersRuns(s: State, t: nat, u: nat)
    requires LocksSound(s) && t in s.txns && u in s.txns && t != u && Own(s.tables, s.txns[t])
    requires Covered(s, t) && Covered(s, u) && RunsFit(s, u)
    ensures RunsFit(Publish(s, t), u)
  {
    var after, a, b := Publish(s, t), s.txns[t], s.txns[u];
    OpenAreApart(s, t, u);
    OwnGrows(s.tables, a);
    MergedGrows(s.tables, a, b);
    hide LocksSound, Covered, Own, Apart;
    forall id | id in b.runs ensures Backed(View(after, u), b.runs[id]) {
      BackedLater(View(s, u), View(after, u), b.runs[id]);
    }
    hide Backed, Grows;
  }

  lemma {:induction false} CoveredLater(s: State, t: nat, u: nat)
    requires t in s.txns && u in s.txns && Covered(s, u)
    ensures Covered(Publish(s, t), u)
  {
    assert KeepsLocksOf(s, Publish(s, t), u);
    hide Holds, Merged;
  }

  lemma {:induction false} OthersFit(s: State, t: nat, u: nat)
    requires LocksSound(s) && D.Sound(s.tables) && t in s.txns && u in s.txns && t != u && Fits(s, t) && Fits(s, u)
    ensures Fits(Publish(s, t), u)
  {
    hide D.Sound, Own, Apart, LocksSound, Covered, RunsFit, Merged;
    OpenAreApart(s, t, u);
    PublishedFits(s.tables, s.txns[t], s.txns[u]);
    CoveredLater(s, t, u);
    OthersRuns(s, t, u);
  }

  lemma {:induction false} RunsStayBacked(s: State, t: nat)
    requires t in s.txns && Fits(s, t) && forall id | id in s.runs :: Backed(s.tables, s.runs[id])
    ensures forall id | id in Publish(s, t).runs :: Backed(Publish(s, t).tables, Publish(s, t).runs[id])
  {
    hide D.Sound, Covered;
    OwnGrows(s.tables, s.txns[t]);
    hide Own;
    forall id | id in s.runs ensures Backed(View(s, t), s.runs[id]) {
      BackedLater(s.tables, View(s, t), s.runs[id]);
    }
    hide Backed, Grows, Merged;
  }

  lemma {:induction false} CommitKeepsSound(s: State, t: nat)
    requires Sound(s) && t in s.txns
    ensures Sound(Release(Publish(s, t), t))
  {
    forall u | u in s.txns && u != t ensures Fits(Publish(s, t), u) {
      OthersFit(s, t, u);
    }
    RunsStayBacked(s, t);
    hide Fits, Backed;
    assert D.Sound(View(s, t)) by { FitIsSound(s, t); }
    hide D.Sound;
    ReleaseKeepsSound(Publish(s, t), t);
  }

  lemma {:induction false} FitIsSound(s: State, t: nat)
    requires t in s.txns && Fits(s, t)
    ensures D.Sound(View(s, t))
  {}

  // ----- every step -----

  /** A step that changes one transaction's rows, which fit, keeps the rest as sound as it was. */
  lemma {:induction false} OneChanges(s: State, after: State, t: nat)
    requires Sound(s) && t in after.txns && Fits(after, t) && after == s.(txns := s.txns[t := after.txns[t]])
    ensures Sound(after)
  {
    hide Fits, D.Sound, Backed;
    forall u | u in after.txns ensures Fits(after, u) {
      if u != t {
        assert KeepsLocksOf(s, after, u);
        SameFits(s, after, u);
      }
    }
    assert LocksSound(after);
    hide LocksSound;
  }

  lemma {:induction false} BeginKeepsSound(s: State, t: nat)
    requires Sound(s) && t !in s.txns
    ensures Sound(Next(s, Begin(t)))
  {
    var after := Next(s, Begin(t));
    hide D.Sound, Backed, LocksSound, Holds;
    assert Merged(s.tables, after.txns[t]) == s.tables;
    OneChanges(s, after, t);
  }

  lemma {:induction false} CallKeepsSound(s: State, t: nat, call: Call)
    requires Sound(s) && t in s.txns
    requires forall want | want in Wants(View(s, t), SeenRuns(s, t), call) :: Holds(s, t, want)
    ensures Sound(Perform(s, t, call))
  {
    hide Wants, Fits, D.Outcome, D.Sound, Holds, Backed, LocksSound, Diff, L.Start, ActiveDataset;
    assert s.(txns := s.txns[t := s.txns[t]]) == s;
    ReleaseKeepsSound(s, t);
    var after := Perform(s, t, call);
    match call {
      case OnDatasets(step) =>
        if D.Outcome(View(s, t), step).Success? {
          OutcomeKeepsFit(s, t, step);
          OneChanges(s, after, t);
        }
      case StartRun(run) =>
        StartKeepsFit(s, t, run);
        if after != Release(s, t) {
          OneChanges(s, after, t);
        }
    }
  }

  lemma {:induction false} NextKeepsSound(s: State, step: Step)
    requires Sound(s)
    ensures Sound(Next(s, step))
  {
    hide Fits, Wants, Perform, Release, Backed, D.Sound;
    var t := step.txn;
    if t in s.txns {
      match step
      case Begin(_) =>
      case Commit(_) => CommitKeepsSound(s, t);
      case Rollback(_) => ReleaseKeepsSound(s, t);
      case Run(_, call) =>
        var wants := Wants(View(s, t), SeenRuns(s, t), call);
        var (locked, ok) := LockAll(s, t, wants);
        LockAllLocks(s, t, wants);
        assert Sound(locked) by {
          forall u | u in locked.txns ensures Fits(locked, u) {
            SameFits(s, locked, u);
          }
        }
        if ok {
          CallKeepsSound(locked, t, call);
        }
    } else if step.Begin? {
      BeginKeepsSound(s, t);
    }
  }

  lemma {:induction false} AlwaysSound(steps: seq<Step>)
    ensures Sound(After(steps))
  {
    if steps != [] {
      hide Sound;
      AlwaysSound(steps[..|steps| - 1]);
      NextKeepsSound(After(steps[..|steps| - 1]), steps[|steps| - 1]);
    }
  }

  // ----- what holds over every interleaving -----

  lemma {:induction false} SoundFits(s: State, t: nat)
    requires Sound(s) && t in s.txns
    ensures Fits(s, t)
  {}

  /** In what is committed, a dataset is active exactly when the singleton row names it, with the current cutoff
      and all components ready from its own passing validations; and the preflight's query is true. */
  lemma {:induction false} CommittedActiveIsTheSingleton(steps: seq<Step>, d: string)
    ensures var c := After(steps).tables;
      && (d in c.datasets && c.datasets[d].status == Active <==> c.active == Some(d))
      && (c.active == Some(d) ==>
            && c.datasets[d].cutoff == D.CURRENT_CUTOFF
            && forall k | k in D.COMPONENTS :: (d, k) in c.readiness && D.ReadinessSound(c, d, k))
      && D.SingletonConsistent(c) && D.ActiveConsistent(c)
  {
    AlwaysSound(steps);
    hide After, Fits, Backed;
    var c := After(steps).tables;
    D.SoundIsConsistent(c);
    if d in c.datasets {
      assert D.ActiveSound(c, d);
    }
  }

  /** At most one open transaction has activated a dataset. */
  lemma {:induction false} OneActivationAtATime(steps: seq<Step>, t: nat, u: nat)
    requires t in After(steps).txns && After(steps).txns[t].active.Some?
    requires u in After(steps).txns && After(steps).txns[u].active.Some?
    ensures t == u
  {
    AlwaysSound(steps);
    SoundFits(After(steps), t);
    SoundFits(After(steps), u);
    hide After, Sound, D.Sound, Own, RunsFit, Holds;
    if t != u {
      assert LocksSound(After(steps)) by { SoundLocks(After(steps)); }
      OpenAreApart(After(steps), t, u);
    }
  }

  lemma {:induction false} SoundLocks(s: State)
    requires Sound(s)
    ensures LocksSound(s)
  {}

  /** What an activation makes of the tables: that dataset active, the one before retired, nothing else. */
  ghost predicate Activates(view: D.Tables, after: D.Tables, d: string) {
    && after.active == Some(d) && after.datasets.Keys == view.datasets.Keys
    && after.validations == view.validations && after.readiness == view.readiness
    && forall e | e in view.datasets :: after.datasets[e] ==
         if e == d then view.datasets[e].(status := Active)
         else if view.active == Some(e) then view.datasets[e].(status := Retired)
         else view.datasets[e]
  }

  ghost predicate Ready(view: D.Tables, d: string) {
    && d in view.datasets && view.datasets[d].cutoff == D.CURRENT_CUTOFF && view.datasets[d].status == Validated
    && forall k | k in D.COMPONENTS :: (d, k) in view.readiness
  }

  lemma {:induction false} ActivatesWhenReady(view: D.Tables, d: string)
    requires D.Sound(view)
    ensures D.Activate(view, d).Success? <==> Ready(view, d)
    ensures Ready(view, d) ==> Activates(view, D.Activate(view, d).value, d)
  {
    D.ActivationIsExact(view, d);
    hide D.Activate, D.Sound;
  }

  /** A call that holds its locks does to its transaction's view what it does to tables of its own, or ends the
      transaction. */
  lemma {:induction false} CallPerforms(s: State, t: nat, step: D.Step)
    requires D.Sound(s.tables) && t in s.txns && Fits(s, t)
    ensures var view, after := View(s, t), Perform(s, t, OnDatasets(step));
      && (t in after.txns <==> D.Outcome(view, step).Success?)
      && (t in after.txns ==> View(after, t) == D.Outcome(view, step).value)
  {
    hide D.Outcome, D.Sound, Own, Covered, RunsFit, Diff, Merged;
    if D.Outcome(View(s, t), step).Success? {
      OutcomeIsOwn(s.tables, s.txns[t], step);
    }
  }

  lemma {:induction false} ViewIsSound(steps: seq<Step>, t: nat)
    requires t in After(steps).txns
    ensures D.Sound(View(After(steps), t))
  {
    hide After, Sound, D.Sound, Own, Covered, RunsFit;
    AlwaysSound(steps);
    SoundFits(After(steps), t);
  }

  /** A call on datasets that need not wait succeeds exactly when it would alone, on what its transaction sees, and the
      transaction then sees what the call would have left alone; a call that must wait changes no row. */
  lemma {:induction false} CallActsOnView(steps: seq<Step>, t: nat, step: D.Step)
    requires t in After(steps).txns
    ensures var s, view, call := After(steps), View(After(steps), t), OnDatasets(step);
      var after := Next(s, Run(t, call));
      if LockAll(s, t, Wants(view, SeenRuns(s, t), call)).1 then
        && (t in after.txns <==> D.Outcome(view, step).Success?)
        && (t in after.txns ==> View(after, t) == D.Outcome(view, step).value)
      else SameRows(s, after)
  {
    var s, call := After(steps), OnDatasets(step);
    AlwaysSound(steps);
    hide After, Fits, D.Sound, Backed, D.Outcome, Perform, Wants, Merged;
    var wants := Wants(View(s, t), SeenRuns(s, t), call);
    LockAllLocks(s, t, wants);
    var locked := LockAll(s, t, wants).0;
    SoundFits(s, t);
    SameFits(s, locked, t);
    hide Sound, LocksSound, KeepsLocks, LockAll;
    CallPerforms(locked, t, step);
  }

  /** A commit makes what its transaction sees the committed tables, started runs included. */
  lemma {:induction false} CommitPublishesView(steps: seq<Step>, t: nat)
    requires t in After(steps).txns
    ensures var s, after := After(steps), Next(After(steps), Commit(t));
      && after.tables == View(s, t) && t !in after.txns
      && (forall id :: id in after.runs <==> id in s.runs || id in s.txns[t].runs)
      && (forall id | id in s.runs :: after.runs[id] == s.runs[id])
      && (forall id | id in s.txns[t].runs :: after.runs[id] == s.txns[t].runs[id])
  {
    AlwaysSound(steps);
    SoundFits(After(steps), t);
    hide After, Sound, D.Sound, Own, Covered, Backed, Merged;
  }

  /** Finishing a validation that need not wait makes its transaction see the dataset as validated if the run passed
      and as failed otherwise, exactly when it sees the run, the dataset being built, and one manifest. */
  lemma {:induction false} FinishIsExact(steps: seq<Step>, t: nat, id: string)
    requires t in After(steps).txns
    ensures var s, view, call := After(steps), View(After(steps), t), OnDatasets(D.FinishStep(id));
      var after := Next(s, Run(t, call));
      LockAll(s, t, Wants(view, SeenRuns(s, t), call)).1 ==>
        && (t in after.txns <==>
              && id in view.validations && view.validations[id].dataset in view.datasets
              && view.datasets[view.validations[id].dataset].status == Building
              && view.datasets[view.validations[id].dataset].manifestHash == view.validations[id].manifestHash)
        && (t in after.txns ==>
              var d := view.validations[id].dataset;
              && D.OnlyDataset(view, View(after, t), d)
              && View(after, t).datasets[d].status == (if view.validations[id].passed then Validated else Failed))
  {
    CallActsOnView(steps, t, D.FinishStep(id));
    hide After, Wants, LockAll, Merged;
    D.FinishIsExact(View(After(steps), t), id);
    hide D.OnlyDataset, D.Outcome, Next;
  }

  /** In what is committed, a dataset that is validated, active or retired has a passing validation under its own
      manifest, and one that has failed has a failing one. */
  lemma {:induction false} CommittedStatusesHaveValidations(steps: seq<Step>, d: string)
    requires d in After(steps).tables.datasets
    ensures var c := After(steps).tables;
      && (c.datasets[d].status in {Validated, Active, Retired} ==>
            exists id :: id in c.validations && c.validations[id] == D.Validation(d, c.datasets[d].manifestHash, true))
      && (c.datasets[d].status == Failed ==>
            exists id :: id in c.validations && c.validations[id] == D.Validation(d, c.datasets[d].manifestHash, false))
  {
    AlwaysSound(steps);
    hide After, Fits, Backed, LocksSound;
    assert D.Sound(After(steps).tables);
    assert D.StatusSound(After(steps).tables, d);
  }

  /** An activation that need not wait goes through exactly when its transaction sees a validated dataset of the
      current cutoff with all components; it then sees that dataset active and the one before retired. An
      activation that must wait changes no row. */
  lemma {:induction false} ActivationIsExact(steps: seq<Step>, t: nat, d: string)
    requires t in After(steps).txns
    ensures var s, view, call := After(steps), View(After(steps), t), OnDatasets(D.ActivateStep(d));
      var after := Next(s, Run(t, call));
      if LockAll(s, t, Wants(view, SeenRuns(s, t), call)).1 then
        (t in after.txns <==> Ready(view, d)) && (Ready(view, d) ==> Activates(view, View(after, t), d))
      else SameRows(s, after)
  {
    hide After, Wants, LockAll, Merged, Next, D.Sound, D.Activate, Ready, Activates, SameRows;
    CallActsOnView(steps, t, D.ActivateStep(d));
    ViewIsSound(steps, t);
    ActivatesWhenReady(View(After(steps), t), d);
  }

  /** A run that has started and not yet committed names the dataset that is active in what is committed, with
      the current cutoff, unless its own transaction activates; committed runs stay backed by a dataset that is
      active or has been. */
  lemma {:induction false} RunsStartOnTheActiveDataset(steps: seq<Step>, t: nat, id: string)
    ensures var s := After(steps);
      && (id in s.runs ==> Backed(s.tables, s.runs[id]))
      && (t in s.txns && id in s.txns[t].runs && s.txns[t].active.None? ==>
            var d := s.txns[t].runs[id].scope.datasetVersion;
            && s.tables.active == Some(d) && d in s.tables.datasets && s.tables.datasets[d].status == Active
            && s.tables.datasets[d].cutoff == s.txns[t].runs[id].scope.cutoffDate == D.CURRENT_CUTOFF)
  {
    var s := After(steps);
    AlwaysSound(steps);
    hide After;
    assert D.Sound(s.tables);
    if t in s.txns && id in s.txns[t].runs && s.txns[t].active.None? {
      SoundFits(s, t);
      hide Sound, LocksSound, Covered;
      var d := s.txns[t].runs[id].scope.datasetVersion;
      assert s.tables.active == Some(d) && Backed(View(s, t), s.txns[t].runs[id]);
      hide RunsFit;
      assert d !in s.txns[t].datasets;
    }
  }

  lemma {:induction false} GrowsTransitive(a: D.Tables, b: D.Tables, c: D.Tables)
    ensures Grows(a, a)
    ensures Grows(a, b) && Grows(b, c) ==> Grows(a, c)
  {}

  lemma {:induction false} PerformKeepsCommitted(s: State, t: nat, call: Call)
    requires t in s.txns
    ensures Perform(s, t, call).tables == s.tables && Perform(s, t, call).runs == s.runs
  {
    hide D.Outcome, L.Start, Diff, ActiveDataset, Merged;
  }

  /** Only a commit changes what is committed. */
  lemma {:induction false} OnlyCommitPublishes(s: State, step: Step)
    requires LocksSound(s) && !(step.Commit? && step.txn in s.txns)
    ensures Next(s, step).tables == s.tables && Next(s, step).runs == s.runs
  {
    hide Perform, Wants, Merged, LocksSound;
    if step.Run? && step.txn in s.txns {
      var t, wants := step.txn, Wants(View(s, step.txn), SeenRuns(s, step.txn), step.call);
      LockAllLocks(s, t, wants);
      var locked := LockAll(s, t, wants).0;
      if t in locked.txns {
        PerformKeepsCommitted(locked, t, step.call);
      }
    }
  }

  lemma {:induction false} NextGrows(s: State, step: Step)
    requires Sound(s)
    ensures Grows(s.tables, Next(s, step).tables)
  {
    if step.Commit? && step.txn in s.txns {
      SoundFits(s, step.txn);
      hide Sound, D.Sound, Covered, RunsFit;
      OwnGrows(s.tables, s.txns[step.txn]);
      hide Grows, Own;
    } else {
      hide Fits, D.Sound, Backed;
      OnlyCommitPublishes(s, step);
      hide Sound, Next;
      GrowsTransitive(s.tables, s.tables, s.tables);
    }
  }

  /** Over any interleaving committed rows are never removed, datasets change in nothing but their status, and
      one that has been active stays active or is retired. */
  lemma {:induction false} CommittedOnlyGrows(steps: seq<Step>, n: nat)
    requires n <= |steps|
    ensures Grows(After(steps[..n]).tables, After(steps).tables)
  {
    var a, k := After(steps[..n]).tables, |steps| - 1;
    if n == |steps| {
      assert steps[..n] == steps;
      GrowsTransitive(a, a, a);
    } else {
      hide Grows, Sound, Next;
      var before := After(steps[..k]);
      assert After(steps) == Next(before, steps[k]);
      assert steps[..k][..n] == steps[..n];
      CommittedOnlyGrows(steps[..k], n);
      AlwaysSound(steps[..k]);
      NextGrows(before, steps[k]);
      GrowsTransitive(a, before.tables, After(steps).tables);
    }
  }
}
