/** Content tables under the dataset row's locks: writers share the row lock until they commit, status
    changes take it exclusively, and every reader under a lock sees the latest committed status. */
module FrozenContent {
  import opened DatasetStatus
  import opened Wrappers

  /** Rows of append-only tables refuse every update and delete. */
  datatype Kind = Editable | AppendOnly

  datatype Key = Key(dataset: string, kind: Kind, id: string)

  datatype Change = Put(content: string) | Gone

  /** The uncommitted changes of a transaction, to rows and to dataset statuses. */
  datatype Txn = Txn(writes: map<Key, Change>, status: map<string, Status>)

  datatype State = State(status: map<string, Status>, rows: map<Key, string>, txns: map<nat, Txn>,
                         shared: set<(string, nat)>, exclusive: map<string, nat>)

  datatype Step =
    | Begin(txn: nat)
    | CreateDataset(txn: nat, dataset: string)
    | InsertRow(txn: nat, key: Key, content: string)
    | UpdateRow(txn: nat, key: Key, dataset: string, content: string)
    | DeleteRow(txn: nat, key: Key)
    | LockBuilding(txn: nat, dataset: string)
    | FinishValidation(txn: nat, dataset: string, pass: bool)
    | SetStatus(txn: nat, dataset: string, status: Status)
    | Commit(txn: nat)
    | Rollback(txn: nat)

  // ----- what a transaction sees, and its locks -----

  function SeenStatus(s: State, t: nat, d: string): Option<Status>
    requires t in s.txns
  {
    if d in s.txns[t].status then Some(s.txns[t].status[d])
    else if d in s.status then Some(s.status[d])
    else None
  }

  predicate SeesRow(s: State, t: nat, k: Key)
    requires t in s.txns
  {
    if k in s.txns[t].writes then s.txns[t].writes[k].Put? else k in s.rows
  }

  /** Another open transaction has changed the row and not yet ended. */
  predicate RowBusy(s: State, t: nat, k: Key) {
    exists u :: u in s.txns && u != t && k in s.txns[u].writes
  }

  predicate SharedBlocked(s: State, t: nat, d: string) {
    d in s.exclusive && s.exclusive[d] != t
  }

  /** A transaction that alone shares the lock may still take it exclusively. */
  predicate ExclusiveBlocked(s: State, t: nat, d: string) {
    SharedBlocked(s, t, d) || exists l :: l in s.shared && l.0 == d && l.1 != t
  }

  function Share(s: State, t: nat, d: string): State {
    s.(shared := s.shared + {(d, t)})
  }

  function Release(s: State, t: nat): State {
    s.(txns := s.txns - {t},
       shared := (set l | l in s.shared && l.1 != t),
       exclusive := (map d | d in s.exclusive && s.exclusive[d] != t :: s.exclusive[d]))
  }

  function Written(s: State, t: nat, k: Key, change: Change): State
    requires t in s.txns
  {
    s.(txns := s.txns[t := s.txns[t].(writes := s.txns[t].writes[k := change])])
  }

  function Moved(s: State, t: nat, d: string, status: Status): State
    requires t in s.txns
  {
    s.(txns := s.txns[t := s.txns[t].(status := s.txns[t].status[d := status])], exclusive := s.exclusive[d := t])
  }

  function Merge(rows: map<Key, string>, writes: map<Key, Change>): map<Key, string> {
    map k | k in rows.Keys + writes.Keys && (if k in writes then writes[k].Put? else true) ::
      if k in writes then writes[k].content else rows[k]
  }

  function Published(s: State, t: nat): State
    requires t in s.txns
  {
    Release(s.(status := s.status + s.txns[t].status, rows := Merge(s.rows, s.txns[t].writes)), t)
  }

  // ----- one step -----

  /** The row trigger and the write it guards. */
  function GuardedWrite(s: State, t: nat, k: Key, change: Change, clash: bool): State
    requires t in s.txns
  {
    if SeenStatus(s, t, k.dataset).None? then Release(s, t)
    else if SharedBlocked(s, t, k.dataset) then s
    else if SeenStatus(s, t, k.dataset) != Some(Building) then Release(s, t)
    else if RowBusy(s, t, k) then Share(s, t, k.dataset)
    else if clash then Release(s, t)
    else Written(Share(s, t, k.dataset), t, k, change)
  }

  /** A status change and its transition trigger; `from` is a status that the caller insists on. */
  function StatusChange(s: State, t: nat, d: string, from: Option<Status>, status: Status): State
    requires t in s.txns
  {
    if SeenStatus(s, t, d).None? then Release(s, t)
    else if ExclusiveBlocked(s, t, d) then s
    else
      var seen := SeenStatus(s, t, d).value;
      if (from.Some? && from.value != seen) || !MayFollow(seen, status) then Release(s, t)
      else Moved(s, t, d, status)
  }

  /** One step of any transaction. A step that must wait changes no data, and neither does one that makes
      no sense; an error ends its transaction. */
  function Next(s: State, step: Step): State {
    if step.Begin? then
      if step.txn in s.txns then s else s.(txns := s.txns[step.txn := Txn(map[], map[])])
    else if step.txn !in s.txns then s
    else
      var t := step.txn;
      match step
      case CreateDataset(_, d) =>
        if exists u :: u in s.txns && u != t && d in s.txns[u].status then s
        else if SeenStatus(s, t, d).Some? then Release(s, t)
        else Moved(s, t, d, Building)
      case InsertRow(_, k, content) => GuardedWrite(s, t, k, Put(content), SeesRow(s, t, k))
      case UpdateRow(_, k, d, content) =>
        if !SeesRow(s, t, k) then s
        else if k.kind.AppendOnly? || d != k.dataset then Release(s, t)
        else GuardedWrite(s, t, k, Put(content), false)
      case DeleteRow(_, k) =>
        if !SeesRow(s, t, k) then s
        else if k.kind.AppendOnly? then Release(s, t)
        else GuardedWrite(s, t, k, Gone, false)
      case LockBuilding(_, d) =>
        if SeenStatus(s, t, d).None? || SharedBlocked(s, t, d) then s else Share(s, t, d)
      case FinishValidation(_, d, pass) => StatusChange(s, t, d, Some(Building), if pass then Validated else Failed)
      case SetStatus(_, d, status) => StatusChange(s, t, d, None, status)
      case Commit(_) => Published(s, t)
      case Rollback(_) => Release(s, t)
  }

  const EMPTY := State(map[], map[], map[], {}, map[])

  function Run(s: State, steps: seq<Step>): State {
    if steps == [] then s else Next(Run(s, steps[..|steps| - 1]), steps[|steps| - 1])
  }

  /** The state after any interleaving of steps on a fresh database. */
  function After(steps: seq<Step>): State {
    Run(EMPTY, steps)
  }

  // ----- every reachable state -----

  /** Only the exclusive holder of a dataset row may also share it; locks belong to open transactions
      that see the row. */
  ghost predicate LocksSound(s: State) {
    && (forall l | l in s.shared && l.0 in s.exclusive :: s.exclusive[l.0] == l.1)
    && (forall l | l in s.shared :: l.1 in s.txns && SeenStatus(s, l.1, l.0).Some?)
    && (forall d | d in s.exclusive :: s.exclusive[d] in s.txns && d in s.txns[s.exclusive[d]].status)
  }

  /** The transaction may still write the dataset's content. */
  ghost predicate MayWrite(s: State, t: nat, d: string)
    requires t in s.txns
  {
    && (d, t) in s.shared
    && (d in s.status ==> s.status[d] == Building)
    && (d !in s.status ==> d in s.txns[t].status)
  }

  /** The transaction's own status for a dataset is protected and never leads back to building. */
  ghost predicate MovedSoundly(s: State, t: nat, d: string)
    requires t in s.txns && d in s.txns[t].status
  {
    && d in s.exclusive && s.exclusive[d] == t
    && (d in s.status && s.status[d] != Building ==> s.txns[t].status[d] != Building)
  }

  ghost predicate TxnSound(s: State, t: nat)
    requires t in s.txns
  {
    && (forall k | k in s.txns[t].writes :: MayWrite(s, t, k.dataset))
    && (forall d | d in s.txns[t].status :: MovedSoundly(s, t, d))
  }

  ghost predicate Sound(s: State) {
    LocksSound(s) && forall t | t in s.txns :: TxnSound(s, t)
  }

  lemma {:induction false} ReleaseKeepsSound(s: State, t: nat)
    requires LocksSound(s) && forall u | u in s.txns && u != t :: TxnSound(s, u)
    ensures Sound(Release(s, t))
  {
    var after := Release(s, t);
    forall u | u in after.txns ensures TxnSound(after, u) {
      hide LocksSound;
      ReleaseLeavesOthers(s, t, u);
    }
    hide TxnSound;
  }

  lemma {:induction false} ReleaseLeavesOthers(s: State, t: nat, u: nat)
    requires u in s.txns && u != t && TxnSound(s, u)
    ensures TxnSound(Release(s, t), u)
  {
    var after := Release(s, t);
    assert forall k | k in s.txns[u].writes :: MayWrite(s, u, k.dataset) && MayWrite(after, u, k.dataset);
    assert forall d | d in s.txns[u].status :: MovedSoundly(s, u, d) && MovedSoundly(after, u, d);
  }

  lemma {:induction false} ShareKeepsSound(s: State, t: nat, d: string)
    requires Sound(s) && t in s.txns && SeenStatus(s, t, d).Some? && !SharedBlocked(s, t, d)
    ensures Sound(Share(s, t, d))
  {
    var after := Share(s, t, d);
    forall u | u in after.txns ensures TxnSound(after, u) {
      assert TxnSound(s, u);
      assert forall k | k in s.txns[u].writes :: MayWrite(s, u, k.dataset) && MayWrite(after, u, k.dataset);
      assert forall d | d in s.txns[u].status :: MovedSoundly(s, u, d) && MovedSoundly(after, u, d);
    }
  }

  lemma {:induction false} WriteKeepsSound(s: State, t: nat, k: Key, change: Change)
    requires Sound(s) && t in s.txns && (k.dataset, t) in s.shared && SeenStatus(s, t, k.dataset) == Some(Building)
    ensures Sound(Written(s, t, k, change))
  {
    var after := Written(s, t, k, change);
    assert TxnSound(s, t);
    forall u | u in after.txns ensures TxnSound(after, u) {
      assert TxnSound(s, u);
      assert forall d | d in s.txns[u].status :: MovedSoundly(s, u, d) && MovedSoundly(after, u, d);
      forall j | j in after.txns[u].writes ensures MayWrite(after, u, j.dataset) {
        assert j in s.txns[u].writes ==> MayWrite(s, u, j.dataset);
      }
    }
  }

  lemma {:induction false} MoveKeepsSound(s: State, t: nat, d: string, status: Status)
    requires Sound(s) && t in s.txns && !ExclusiveBlocked(s, t, d)
    requires SeenStatus(s, t, d).Some? ==> MayFollow(SeenStatus(s, t, d).value, status)
    ensures Sound(Moved(s, t, d, status))
  {
    var after := Moved(s, t, d, status);
    forall u | u in after.txns ensures TxnSound(after, u) {
      hide LocksSound;
      MoveLeavesSound(s, t, d, status, u);
    }
    MoveKeepsLocks(s, t, d, status);
    hide TxnSound, LocksSound;
  }

  lemma {:induction false} MoveKeepsLocks(s: State, t: nat, d: string, status: Status)
    requires LocksSound(s) && t in s.txns && !ExclusiveBlocked(s, t, d)
    ensures LocksSound(Moved(s, t, d, status))
  {}

  lemma {:induction false} MoveLeavesSound(s: State, t: nat, d: string, status: Status, u: nat)
    requires Sound(s) && t in s.txns && u in s.txns && !ExclusiveBlocked(s, t, d)
    requires SeenStatus(s, t, d).Some? ==> MayFollow(SeenStatus(s, t, d).value, status)
    ensures TxnSound(Moved(s, t, d, status), u)
  {
    var after := Moved(s, t, d, status);
    assert TxnSound(s, u);
    forall e | e in after.txns[u].status ensures MovedSoundly(after, u, e) {
      assert e in s.txns[u].status ==> MovedSoundly(s, u, e);
    }
    assert forall j | j in s.txns[u].writes :: MayWrite(s, u, j.dataset) && MayWrite(after, u, j.dataset);
  }

  lemma {:induction false} PublishKeepsSound(s: State, t: nat)
    requires Sound(s) && t in s.txns
    ensures Sound(Published(s, t))
  {
    var middle := s.(status := s.status + s.txns[t].status, rows := Merge(s.rows, s.txns[t].writes));
    assert TxnSound(s, t);
    forall u | u in middle.txns && u != t ensures TxnSound(middle, u) {
      assert TxnSound(s, u);
      forall k | k in s.txns[u].writes ensures MayWrite(middle, u, k.dataset) {
        assert MayWrite(s, u, k.dataset);
        assert k.dataset in s.txns[t].status ==> MovedSoundly(s, t, k.dataset);
      }
      forall d | d in s.txns[u].status ensures MovedSoundly(middle, u, d) {
        assert MovedSoundly(s, u, d);
        assert d in s.txns[t].status ==> MovedSoundly(s, t, d);
      }
    }
    ReleaseKeepsSound(middle, t);
  }

  /** A dataset that nobody else has created yet is locked by nobody else. */
  lemma {:induction false} NobodyElseLocks(s: State, t: nat, d: string)
    requires Sound(s) && t in s.txns && SeenStatus(s, t, d).None?
    requires forall u | u in s.txns && u != t :: d !in s.txns[u].status
    ensures !ExclusiveBlocked(s, t, d)
  {}

  lemma {:induction false} NextKeepsSound(s: State, step: Step)
    requires Sound(s)
    ensures Sound(Next(s, step))
  {
    hide TxnSound;
    var t := step.txn;
    ReleaseKeepsSound(s, t);
    match step
    case Begin(_) =>
      if t !in s.txns { BeginKeepsSound(s, t); }
    case CreateDataset(_, d) =>
      if t in s.txns && !(exists u :: u in s.txns && u != t && d in s.txns[u].status) && SeenStatus(s, t, d).None? {
        NobodyElseLocks(s, t, d);
        MoveKeepsSound(s, t, d, Building);
      }
    case InsertRow(_, k, content) =>
      if t in s.txns { GuardedWriteKeepsSound(s, t, k, Put(content), SeesRow(s, t, k)); }
    case UpdateRow(_, k, _, content) =>
      if t in s.txns { GuardedWriteKeepsSound(s, t, k, Put(content), false); }
    case DeleteRow(_, k) =>
      if t in s.txns { GuardedWriteKeepsSound(s, t, k, Gone, false); }
    case LockBuilding(_, d) =>
      if t in s.txns && SeenStatus(s, t, d).Some? && !SharedBlocked(s, t, d) { ShareKeepsSound(s, t, d); }
    case FinishValidation(_, d, pass) =>
      if t in s.txns { StatusChangeKeepsSound(s, t, d, Some(Building), if pass then Validated else Failed); }
    case SetStatus(_, d, status) =>
      if t in s.txns { StatusChangeKeepsSound(s, t, d, None, status); }
    case Commit(_) =>
      if t in s.txns { PublishKeepsSound(s, t); }
    case Rollback(_) =>
  }

  lemma {:induction false} BeginKeepsSound(s: State, t: nat)
    requires Sound(s) && t !in s.txns
    ensures Sound(s.(txns := s.txns[t := Txn(map[], map[])]))
  {
    var after := s.(txns := s.txns[t := Txn(map[], map[])]);
    forall u | u in after.txns ensures TxnSound(after, u) {
      if u != t {
        assert TxnSound(s, u);
        assert forall k | k in s.txns[u].writes :: MayWrite(s, u, k.dataset) && MayWrite(after, u, k.dataset);
        assert forall d | d in s.txns[u].status :: MovedSoundly(s, u, d) && MovedSoundly(after, u, d);
      }
    }
  }

  lemma {:induction false} GuardedWriteKeepsSound(s: State, t: nat, k: Key, change: Change, clash: bool)
    requires Sound(s) && t in s.txns
    ensures Sound(GuardedWrite(s, t, k, change, clash))
  {
    hide TxnSound;
    ReleaseKeepsSound(s, t);
    if !SharedBlocked(s, t, k.dataset) && SeenStatus(s, t, k.dataset) == Some(Building) {
      ShareKeepsSound(s, t, k.dataset);
      WriteKeepsSound(Share(s, t, k.dataset), t, k, change);
    }
  }

  lemma {:induction false} StatusChangeKeepsSound(s: State, t: nat, d: string, from: Option<Status>, status: Status)
    requires Sound(s) && t in s.txns
    ensures Sound(StatusChange(s, t, d, from, status))
  {
    hide TxnSound;
    ReleaseKeepsSound(s, t);
    if SeenStatus(s, t, d).Some? && !ExclusiveBlocked(s, t, d) && MayFollow(SeenStatus(s, t, d).value, status) {
      MoveKeepsSound(s, t, d, status);
    }
  }

  lemma {:induction false} RunKeepsSound(s: State, steps: seq<Step>)
    requires Sound(s)
    ensures Sound(Run(s, steps))
  {
    if steps != [] {
      hide Sound;
      RunKeepsSound(s, steps[..|steps| - 1]);
      NextKeepsSound(Run(s, steps[..|steps| - 1]), steps[|steps| - 1]);
    }
  }

  // ----- what it means for content -----

  /** Whatever a transaction is about to commit was written while its dataset was being built, and, unless
      it creates the dataset itself, the dataset is still committed as building. */
  lemma {:induction false} WritersCommitWhileBuilding(steps: seq<Step>, t: nat, k: Key)
    requires t in After(steps).txns && k in After(steps).txns[t].writes
    ensures var s := After(steps);
      if k.dataset in s.status then s.status[k.dataset] == Building else k.dataset in s.txns[t].status
  {
    RunKeepsSound(EMPTY, steps);
    assert TxnSound(After(steps), t);
    assert MayWrite(After(steps), t, k.dataset);
  }

  ghost predicate SameContent(a: State, b: State, d: string) {
    forall k: Key | k.dataset == d :: (k in a.rows <==> k in b.rows) && (k in a.rows ==> a.rows[k] == b.rows[k])
  }

  ghost predicate Finished(s: State, d: string) {
    d in s.status && s.status[d] != Building
  }

  /** Only a commit changes what is committed. */
  lemma {:induction false} OnlyCommitPublishes(s: State, step: Step)
    requires !step.Commit? || step.txn !in s.txns
    ensures Next(s, step).rows == s.rows && Next(s, step).status == s.status
  {
    hide MayFollow, SeenStatus, SeesRow, RowBusy, SharedBlocked, ExclusiveBlocked;
  }

  lemma {:induction false} PublishKeepsFinished(s: State, t: nat, d: string)
    requires Sound(s) && Finished(s, d) && t in s.txns
    ensures Finished(Published(s, t), d) && SameContent(s, Published(s, t), d)
  {
    assert TxnSound(s, t);
    forall k | k in s.txns[t].writes ensures k.dataset != d {
      assert MayWrite(s, t, k.dataset);
    }
    assert d in s.txns[t].status ==> MovedSoundly(s, t, d);
  }

  lemma {:induction false} NextKeepsFinished(s: State, step: Step, d: string)
    requires Sound(s) && Finished(s, d)
    ensures Finished(Next(s, step), d) && SameContent(s, Next(s, step), d)
  {
    if step.Commit? && step.txn in s.txns {
      PublishKeepsFinished(s, step.txn, d);
    } else {
      OnlyCommitPublishes(s, step);
      hide Next, Sound;
    }
  }

  lemma {:induction false} RunKeepsFinished(s: State, steps: seq<Step>, d: string)
    requires Sound(s) && Finished(s, d)
    ensures Finished(Run(s, steps), d) && SameContent(s, Run(s, steps), d)
  {
    if steps != [] {
      hide Finished, SameContent, Sound;
      var front := steps[..|steps| - 1];
      RunKeepsFinished(s, front, d);
      RunKeepsSound(s, front);
      NextKeepsFinished(Run(s, front), steps[|steps| - 1], d);
      SameContentTransitive(s, Run(s, front), Run(s, steps), d);
    } else {
      SameContentTransitive(s, s, s, d);
    }
  }

  lemma {:induction false} SameContentTransitive(a: State, b: State, c: State, d: string)
    ensures SameContent(a, a, d)
    ensures SameContent(a, b, d) && SameContent(b, c, d) ==> SameContent(a, c, d)
  {}

  /** Once a dataset has left building, no interleaving ever brings it back or changes one of its rows. */
  lemma {:induction false} FinishedContentIsFrozen(steps: seq<Step>, more: seq<Step>, d: string)
    requires Finished(After(steps), d)
    ensures Finished(Run(After(steps), more), d) && SameContent(After(steps), Run(After(steps), more), d)
  {
    RunKeepsSound(EMPTY, steps);
    RunKeepsFinished(After(steps), more, d);
  }

  // ----- what a shared lock promises -----

  /** While a transaction shares a committed dataset's row, nothing that others do moves its status. */
  lemma {:induction false} OthersLeaveLockedStatus(s: State, step: Step, t: nat, d: string)
    requires Sound(s) && (d, t) in s.shared && d in s.status && step.txn != t
    ensures (d, t) in Next(s, step).shared && d in Next(s, step).status && Next(s, step).status[d] == s.status[d]
  {
    OthersKeepShares(s, step, t, d);
    if step.Commit? && step.txn in s.txns {
      assert TxnSound(s, step.txn);
      assert d in s.txns[step.txn].status ==> MovedSoundly(s, step.txn, d);
    } else {
      OnlyCommitPublishes(s, step);
      hide Next, Sound;
    }
  }

  lemma {:induction false} OthersKeepShares(s: State, step: Step, t: nat, d: string)
    requires (d, t) in s.shared && step.txn != t
    ensures (d, t) in Next(s, step).shared
  {
    hide MayFollow, SeenStatus, SeesRow, RowBusy, SharedBlocked, ExclusiveBlocked, Merge;
  }

  lemma {:induction false} LockedStaysBuilding(steps: seq<Step>, more: seq<Step>, t: nat, d: string)
    requires (d, t) in After(steps).shared && d in After(steps).status
    requires forall step | step in more :: step.txn != t
    ensures var s, later := After(steps), Run(After(steps), more);
      (d, t) in later.shared && d in later.status && later.status[d] == s.status[d]
  {
    if more != [] {
      hide Sound, Next;
      var front := more[..|more| - 1];
      LockedStaysBuilding(steps, front, t, d);
      RunKeepsSound(EMPTY, steps);
      RunKeepsSound(After(steps), front);
      OthersLeaveLockedStatus(Run(After(steps), front), more[|more| - 1], t, d);
    }
  }

  // ----- what each step does -----

  /** The content of a row as a transaction sees it. */
  function SeenContent(s: State, t: nat, k: Key): Option<string>
    requires t in s.txns
  {
    if k in s.txns[t].writes then
      if s.txns[t].writes[k].Put? then Some(s.txns[t].writes[k].content) else None
    else if k in s.rows then Some(s.rows[k])
    else None
  }

  /** What is committed and what other transactions see is as it was, and so is every status that `t` sees. */
  ghost predicate OnlyOwnRow(s: State, after: State, t: nat, k: Key)
    requires t in s.txns && t in after.txns
  {
    && after.rows == s.rows && after.status == s.status && after.exclusive == s.exclusive
    && after.txns.Keys == s.txns.Keys && (forall u | u in s.txns && u != t :: after.txns[u] == s.txns[u])
    && (forall d :: SeenStatus(after, t, d) == SeenStatus(s, t, d))
    && (forall j: Key | j != k :: SeenContent(after, t, j) == SeenContent(s, t, j))
  }

  lemma {:induction false} ShareShows(s: State, t: nat, k: Key)
    requires t in s.txns
    ensures OnlyOwnRow(s, Share(s, t, k.dataset), t, k)
  {}

  lemma {:induction false} WriteShows(s: State, t: nat, k: Key, change: Change)
    requires t in s.txns
    ensures var after := Written(Share(s, t, k.dataset), t, k, change);
      && t in after.txns && (k.dataset, t) in after.shared && OnlyOwnRow(s, after, t, k)
      && SeenContent(after, t, k) == if change.Put? then Some(change.content) else None
  {}

  /** A row is written only under the shared lock of a dataset that the transaction sees as building. A writer that
      meets an exclusive holder or an uncommitted change waits, and one that meets another status ends. */
  lemma {:induction false} InsertIsExact(s: State, t: nat, k: Key, content: string)
    requires t in s.txns
    ensures var after, seen := Next(s, InsertRow(t, k, content)), SeenStatus(s, t, k.dataset);
      var waits := seen.Some? && k.dataset in s.exclusive && s.exclusive[k.dataset] != t;
      var refused := !waits && seen != Some(Building);
      var busy := exists u :: u in s.txns && u != t && k in s.txns[u].writes;
      && (waits ==> after == s)
      && (refused || (!waits && !busy && SeenContent(s, t, k).Some?) <==> t !in after.txns)
      && (!waits && !refused && (busy || SeenContent(s, t, k).None?) ==>
            && (k.dataset, t) in after.shared && OnlyOwnRow(s, after, t, k)
            && SeenContent(after, t, k) == if busy then SeenContent(s, t, k) else Some(content))
  {
    ShareShows(s, t, k);
    WriteShows(s, t, k, Put(content));
    hide OnlyOwnRow, Written;
  }

  /** A visible row is updated in place, under the same rules; its dataset cannot change and an append-only row
      cannot either. */
  lemma {:induction false} UpdateIsExact(s: State, t: nat, k: Key, d: string, content: string)
    requires t in s.txns && SeenContent(s, t, k).Some?
    ensures var after, seen := Next(s, UpdateRow(t, k, d, content)), SeenStatus(s, t, k.dataset);
      var allowed := k.kind == Editable && d == k.dataset;
      var waits := allowed && seen.Some? && k.dataset in s.exclusive && s.exclusive[k.dataset] != t;
      var busy := exists u :: u in s.txns && u != t && k in s.txns[u].writes;
      && (waits ==> after == s)
      && (!allowed || (!waits && seen != Some(Building)) <==> t !in after.txns)
      && (allowed && !waits && seen == Some(Building) ==>
            && (k.dataset, t) in after.shared && OnlyOwnRow(s, after, t, k)
            && SeenContent(after, t, k) == if busy then SeenContent(s, t, k) else Some(content))
  {
    ShareShows(s, t, k);
    WriteShows(s, t, k, Put(content));
    hide OnlyOwnRow, Written;
  }

  /** Deleting follows the same rules and makes the row invisible to its transaction. */
  lemma {:induction false} DeleteIsExact(s: State, t: nat, k: Key)
    requires t in s.txns && SeenContent(s, t, k).Some?
    ensures var after, seen := Next(s, DeleteRow(t, k)), SeenStatus(s, t, k.dataset);
      var allowed := k.kind == Editable;
      var waits := allowed && seen.Some? && k.dataset in s.exclusive && s.exclusive[k.dataset] != t;
      var busy := exists u :: u in s.txns && u != t && k in s.txns[u].writes;
      && (waits ==> after == s)
      && (!allowed || (!waits && seen != Some(Building)) <==> t !in after.txns)
      && (allowed && !waits && seen == Some(Building) ==>
            && (k.dataset, t) in after.shared && OnlyOwnRow(s, after, t, k)
            && SeenContent(after, t, k) == if busy then SeenContent(s, t, k) else None)
  {
    ShareShows(s, t, k);
    WriteShows(s, t, k, Gone);
    hide OnlyOwnRow, Written;
  }

  /** Finishing a validation needs the dataset's row for itself. It then makes its transaction see a building dataset
      as validated if it passed and as failed otherwise, and ends on any other status. */
  lemma {:induction false} FinishIsExact(s: State, t: nat, d: string, pass: bool)
    requires t in s.txns && SeenStatus(s, t, d).Some?
    ensures var after := Next(s, FinishValidation(t, d, pass));
      var waits := (d in s.exclusive && s.exclusive[d] != t) || exists l :: l in s.shared && l.0 == d && l.1 != t;
      && (waits ==> after == s)
      && (!waits && SeenStatus(s, t, d) != Some(Building) <==> t !in after.txns)
      && (!waits && SeenStatus(s, t, d) == Some(Building) ==>
            && d in after.exclusive && after.exclusive[d] == t
            && SeenStatus(after, t, d) == Some(if pass then Validated else Failed)
            && after.rows == s.rows && after.status == s.status && after.shared == s.shared
            && forall k :: SeenContent(after, t, k) == SeenContent(s, t, k))
  {}

  /** A dataset is created as building, unless its transaction sees it already, or another is about to create it. */
  lemma {:induction false} CreateIsExact(s: State, t: nat, d: string)
    requires t in s.txns
    ensures var after := Next(s, CreateDataset(t, d));
      var waits := exists u :: u in s.txns && u != t && d in s.txns[u].status;
      && (waits ==> after == s)
      && (!waits && SeenStatus(s, t, d).Some? <==> t !in after.txns)
      && (!waits && SeenStatus(s, t, d).None? ==>
            && SeenStatus(after, t, d) == Some(Building) && d in after.exclusive && after.exclusive[d] == t
            && after.rows == s.rows && after.status == s.status && after.shared == s.shared
            && forall e | e != d :: SeenStatus(after, t, e) == SeenStatus(s, t, e))
  {}

  /** A commit makes what its transaction sees, statuses and rows, what is committed, and gives up its locks. */
  lemma {:induction false} CommitIsExact(s: State, t: nat)
    requires t in s.txns
    ensures var after := Next(s, Commit(t));
      && t !in after.txns && (forall u | u in s.txns && u != t :: u in after.txns && after.txns[u] == s.txns[u])
      && (forall d :: (d in after.status <==> SeenStatus(s, t, d).Some?)
                      && (d in after.status ==> after.status[d] == SeenStatus(s, t, d).value))
      && (forall k :: (k in after.rows <==> SeenContent(s, t, k).Some?)
                      && (k in after.rows ==> after.rows[k] == SeenContent(s, t, k).value))
      && (forall l :: l in after.shared <==> l in s.shared && l.1 != t)
      && (forall d :: d in after.exclusive <==> d in s.exclusive && s.exclusive[d] != t)
  {}

  // ----- triggers and functions at work -----

  class Database {
    var status: map<string, Status>
    var rows: map<Key, string>
    var txns: map<nat, Txn>
    var shared: set<(string, nat)>
    var exclusive: map<string, nat>

    ghost function Now(): State
      reads this
    {
      State(status, rows, txns, shared, exclusive)
    }

    constructor ()
      ensures Now() == EMPTY
    {
      status, rows, txns, shared, exclusive := map[], map[], map[], {}, map[];
    }

    method End(t: nat)
      modifies this
      ensures Now() == Release(old(Now()), t)
    {
      txns := txns - {t};
      shared := set l | l in shared && l.1 != t;
      exclusive := map d | d in exclusive && exclusive[d] != t :: exclusive[d];
    }

    function Seen(t: nat, d: string): Option<Status>
      requires t in txns
      reads this
    {
      SeenStatus(State(status, rows, txns, shared, exclusive), t, d)
    }

    /** What the row trigger concludes, after it has the lock. */
    method Guard(t: nat, d: string) returns (waits: bool, refused: bool)
      requires t in txns
      modifies this
      ensures refused ==> Now() == Release(old(Now()), t)
      ensures !refused ==> Now() == if waits then old(Now()) else Share(old(Now()), t, d)
      ensures waits <==> old(SeenStatus(Now(), t, d)).Some? && old(SharedBlocked(Now(), t, d))
      ensures refused <==> !waits && old(SeenStatus(Now(), t, d)) != Some(Building)
    {
      waits, refused := false, false;
      var current := Seen(t, d);
      if current.Some? {
        if d in exclusive && exclusive[d] != t {
          return true, false;
        }
        shared := shared + {(d, t)};
      }
      if current != Some(Building) {
        refused := true;
        End(t);
      }
    }

    method Insert(t: nat, k: Key, content: string)
      requires t in txns
      modifies this
      ensures Now() == Next(old(Now()), InsertRow(t, k, content))
    {
      var waits, refused := Guard(t, k.dataset);
      if waits || refused || RowBusy(State(status, rows, txns, shared, exclusive), t, k) {
        return;
      }
      if SeesRow(State(status, rows, txns, shared, exclusive), t, k) {
        End(t);
      } else {
        txns := txns[t := txns[t].(writes := txns[t].writes[k := Put(content)])];
      }
    }

    /** True exactly when the caller now holds the lock on a dataset that it sees as building. */
    method LockBuildingDataset(t: nat, d: string) returns (waits: bool, building: bool)
      requires t in txns
      modifies this
      ensures Now() == Next(old(Now()), LockBuilding(t, d))
      ensures building ==> (d, t) in shared && SeenStatus(Now(), t, d) == Some(Building)
      ensures waits <==> old(SeenStatus(Now(), t, d)).Some? && old(SharedBlocked(Now(), t, d))
      ensures !waits && !building ==> SeenStatus(Now(), t, d) != Some(Building)
    {
      waits, building := false, false;
      var current := Seen(t, d);
      if current.Some? {
        if d in exclusive && exclusive[d] != t {
          return true, false;
        }
        shared := shared + {(d, t)};
      }
      building := current == Some(Building);
    }

    method FinishDatasetValidation(t: nat, d: string, pass: bool)
      requires t in txns
      modifies this
      ensures Now() == Next(old(Now()), FinishValidation(t, d, pass))
      ensures status == old(status) && rows == old(rows) && shared <= old(shared)
      ensures t in txns && txns != old(txns) ==>
                && old(SeenStatus(Now(), t, d)) == Some(Building)
                && SeenStatus(Now(), t, d) == Some(if pass then Validated else Failed)
    {
      var current := Seen(t, d);
      if current.None? {
        End(t);
        return;
      }
      if ExclusiveBlocked(State(status, rows, txns, shared, exclusive), t, d) {
        return;
      }
      if current != Some(Building) {
        End(t);
        return;
      }
      var next := if pass then Validated else Failed;
      txns := txns[t := txns[t].(status := txns[t].status[d := next])];
      exclusive := exclusive[d := t];
    }

    method CommitTransaction(t: nat)
      requires t in txns
      modifies this
      ensures Now() == Next(old(Now()), Commit(t))
    {
      status := status + txns[t].status;
      rows := Merge(rows, txns[t].writes);
      End(t);
    }
  }
}
