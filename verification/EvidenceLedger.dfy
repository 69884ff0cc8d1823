/** The ledger of calculation dependencies: transactions that insert edges under a lock on their run, and
    a cycle check per new edge when its transaction commits. */
module EvidenceLedger {
  import opened Graphs
  import opened Sequences
  import K = Kahn

  /** A row of the dependency table: `calculation` uses the result of `input`. */
  datatype Row = Row(run: string, dataset: string, calculation: string, input: string, ordinal: int)

  datatype Record = Record(run: string, dataset: string, calculation: string)

  /** What a transaction has inserted; the deferred check is still due for `unchecked`. */
  datatype Txn = Txn(records: set<Record>, rows: set<Row>, unchecked: set<Row>)

  /** Request runs with their dataset, committed rows, open transactions, and who holds which run's row lock. */
  datatype State = State(runs: map<string, string>, records: set<Record>, rows: set<Row>, txns: map<nat, Txn>,
                         locks: map<string, nat>)

  datatype Step =
    | StartRun(run: string, dataset: string)
    | Begin(txn: nat)
    | AddRecord(txn: nat, record: Record)
    | Insert(txn: nat, row: Row)
    | CheckNow(txn: nat)
    | Commit(txn: nat)
    | Rollback(txn: nat)

  // ----- one step -----

  ghost function Inputs(rows: set<Row>, run: string): Edges {
    set r | r in rows && r.run == run :: (r.calculation, r.input)
  }

  /** The new row's calculation can be reached from its input. */
  ghost predicate ClosesCycle(rows: set<Row>, row: Row) {
    row.calculation == row.input || Reaches(Inputs(rows, row.run), row.input, row.calculation)
  }

  predicate HasRunRow(s: State, run: string, dataset: string) {
    run in s.runs && s.runs[run] == dataset
  }

  predicate MustWait(s: State, t: nat, row: Row) {
    HasRunRow(s, row.run, row.dataset) && row.run in s.locks && s.locks[row.run] != t
  }

  /** The table constraints, over what the transaction sees: its own rows and the committed ones. */
  predicate Allowed(s: State, t: nat, row: Row)
    requires t in s.txns
  {
    var records := s.records + s.txns[t].records;
    && row.calculation != row.input && row.ordinal >= 0
    && Record(row.run, row.dataset, row.calculation) in records
    && Record(row.run, row.dataset, row.input) in records
    && forall r | r in s.rows + s.txns[t].rows ::
         r.run == row.run && r.calculation == row.calculation ==> r.ordinal != row.ordinal && r.input != row.input
  }

  predicate RecordAllowed(s: State, t: nat, record: Record)
    requires t in s.txns
  {
    && HasRunRow(s, record.run, record.dataset)
    && forall r | r in s.records + s.txns[t].records :: r.run != record.run || r.calculation != record.calculation
  }

  /** Ends transaction `t`: its locks go. */
  function Release(s: State, t: nat): State {
    s.(txns := s.txns - {t}, locks := map run | run in s.locks && s.locks[run] != t :: s.locks[run])
  }

  ghost predicate PassesCheck(s: State, t: nat)
    requires t in s.txns
  {
    forall r | r in s.txns[t].unchecked :: !ClosesCycle(s.rows + s.txns[t].rows, r)
  }

  function Inserted(s: State, t: nat, row: Row): State
    requires t in s.txns
  {
    var txn := s.txns[t];
    var locks := if HasRunRow(s, row.run, row.dataset) then s.locks[row.run := t] else s.locks;
    s.(txns := s.txns[t := txn.(rows := txn.rows + {row}, unchecked := txn.unchecked + {row})], locks := locks)
  }

  function Published(s: State, t: nat): State
    requires t in s.txns
  {
    Release(s.(records := s.records + s.txns[t].records, rows := s.rows + s.txns[t].rows), t)
  }

  /** One step of any transaction. A step that must wait, or that makes no sense, changes nothing; an
      error ends its transaction. */
  ghost function Next(s: State, step: Step): State {
    match step
    case StartRun(run, dataset) => if run in s.runs then s else s.(runs := s.runs[run := dataset])
    case Begin(t) => if t in s.txns then s else s.(txns := s.txns[t := Txn({}, {}, {})])
    case AddRecord(t, record) =>
      if t !in s.txns || (exists u :: u in s.txns && u != t && record in s.txns[u].records) then s
      else if !RecordAllowed(s, t, record) then Release(s, t)
      else s.(txns := s.txns[t := s.txns[t].(records := s.txns[t].records + {record})])
    case Insert(t, row) =>
      if t !in s.txns || MustWait(s, t, row) then s
      else if !Allowed(s, t, row) then Release(s, t)
      else Inserted(s, t, row)
    case CheckNow(t) =>
      if t !in s.txns then s
      else if !PassesCheck(s, t) then Release(s, t)
      else s.(txns := s.txns[t := s.txns[t].(unchecked := {})])
    case Commit(t) =>
      if t !in s.txns then s
      else if !PassesCheck(s, t) then Release(s, t)
      else Published(s, t)
    case Rollback(t) => Release(s, t)
  }

  const EMPTY := State(map[], {}, {}, map[], map[])

  /** The state after any interleaving of steps. */
  ghost function After(steps: seq<Step>): State {
    if steps == [] then EMPTY else Next(After(steps[..|steps| - 1]), steps[|steps| - 1])
  }

  // ----- the recursive query -----

  ghost predicate ClosedOutside(rows: set<Row>, run: string, path: set<string>, frontier: set<string>) {
    forall x, y | x in path && x !in frontier && (x, y) in Inputs(rows, run) :: y in path
  }

  lemma {:induction false} ClosedHoldsReached(rows: set<Row>, run: string, path: set<string>, walk: seq<string>)
    requires ClosedOutside(rows, run, path, {}) && walk != [] && IsWalk(Inputs(rows, run), walk) && walk[0] in path
    ensures walk[|walk| - 1] in path
    decreases |walk|
  {
    if |walk| > 1 {
      assert (walk[0], walk[1]) in Inputs(rows, run);
      WalkPart(Inputs(rows, run), walk, 1, |walk|);
      ClosedHoldsReached(rows, run, path, walk[1..]);
    }
  }

  function Wave(rows: set<Row>, run: string, path: set<string>, frontier: set<string>): set<string> {
    set r | r in rows && r.run == run && r.calculation in frontier && r.input !in path :: r.input
  }

  lemma {:induction false} WaveStep(rows: set<Row>, run: string, start: string, path: set<string>,
                                    frontier: set<string>)
    requires frontier <= path && ClosedOutside(rows, run, path, frontier)
    requires forall x | x in path && x != start :: Reaches(Inputs(rows, run), start, x)
    ensures ClosedOutside(rows, run, path + Wave(rows, run, path, frontier), Wave(rows, run, path, frontier))
    ensures forall x | x in Wave(rows, run, path, frontier) :: Reaches(Inputs(rows, run), start, x)
  {
    var edges, next := Inputs(rows, run), Wave(rows, run, path, frontier);
    forall x | x in next ensures Reaches(edges, start, x) {
      var r :| r in rows && r.run == run && r.calculation in frontier && r.input == x;
      assert (r.calculation, x) in edges;
      EdgeReaches(edges, r.calculation, x);
      if r.calculation != start {
        ReachesTransitive(edges, start, r.calculation, x);
      }
    }
    forall x, y | x in frontier && (x, y) in edges ensures y in path + next {
      var r :| r in rows && r.run == run && (r.calculation, r.input) == (x, y);
    }
  }

  /** The recursive query keeps each calculation once, so it ends on every graph, with cycles or without;
      it holds the start and everything the start depends on. */
  method DependencyPath(rows: set<Row>, run: string, start: string) returns (path: set<string>)
    ensures forall x :: x in path <==> x == start || Reaches(Inputs(rows, run), start, x)
  {
    hide Reaches, Inputs, ClosedOutside;
    path := {start};
    var frontier := {start};
    ghost var all := {start} + set r | r in rows :: r.input;
    assert ClosedOutside(rows, run, path, frontier) by { StartsClosed(rows, run, start); }
    while frontier != {}
      invariant frontier <= path <= all && start in path && ClosedOutside(rows, run, path, frontier)
      invariant forall x | x in path && x != start :: Reaches(Inputs(rows, run), start, x)
      decreases |all - path|, |frontier|
    {
      var next := Wave(rows, run, path, frontier);
      WaveStep(rows, run, start, path, frontier);
      if next != {} {
        SmallerSet(all - (path + next), all - path);
      }
      path, frontier := path + next, next;
    }
    forall x | Reaches(Inputs(rows, run), start, x) ensures x in path {
      ReachedIsHeld(rows, run, path, start, x);
    }
  }

  lemma {:induction false} StartsClosed(rows: set<Row>, run: string, start: string)
    ensures ClosedOutside(rows, run, {start}, {start})
  {}

  lemma {:induction false} ReachedIsHeld(rows: set<Row>, run: string, path: set<string>, start: string, x: string)
    requires ClosedOutside(rows, run, path, {}) && start in path && Reaches(Inputs(rows, run), start, x)
    ensures x in path
  {
    var walk :| |walk| >= 2 && IsWalkFromTo(Inputs(rows, run), walk, start, x);
    ClosedHoldsReached(rows, run, path, walk);
  }

  // ----- the check is exact -----

  /** When no new edge lies on a cycle, adding all of them at once makes none. */
  lemma {:induction false} NewEdgesMakeNoCycle(kept: Edges, edges: Edges)
    requires !HasCycle(kept) && kept <= edges
    requires forall e | e in edges && e !in kept :: e.0 != e.1 && !Reaches(edges, e.1, e.0)
    ensures !HasCycle(edges)
  {
    if walk :| IsCycle(edges, walk) {
      if k :| 0 <= k < |walk| - 1 && (walk[k], walk[k + 1]) !in kept {
        assert (walk[k], walk[k + 1]) in edges;
        EdgeOnCycle(edges, walk, k);
        assert false;
      } else {
        assert IsCycle(kept, walk);
      }
    }
  }

  /** Following a cycle around from the end of one of its edges leads back to the edge's beginning. */
  lemma {:induction false} EdgeOnCycle(edges: Edges, walk: seq<string>, k: nat)
    requires IsCycle(edges, walk) && k < |walk| - 1
    ensures walk[k] == walk[k + 1] || Reaches(edges, walk[k + 1], walk[k])
  {
    WalkPart(edges, walk, k + 1, |walk|);
    WalkPart(edges, walk, 0, k + 1);
    var after, before := walk[k + 1..|walk|], walk[0..k + 1];
    WalkJoin(edges, after, before);
    var round := after + before[1..];
    assert IsWalkFromTo(edges, round, walk[k + 1], walk[k]);
  }

  lemma {:induction false} ClosingIsCyclic(rows: set<Row>, row: Row)
    requires row in rows && ClosesCycle(rows, row)
    ensures HasCycle(Inputs(rows, row.run))
  {
    var edges := Inputs(rows, row.run);
    assert (row.calculation, row.input) in edges;
    if row.calculation == row.input {
      assert IsCycle(edges, [row.calculation, row.input]);
    } else {
      var walk :| |walk| >= 2 && IsWalkFromTo(edges, walk, row.input, row.calculation);
      ExtendWalk(edges, row.calculation, walk);
      assert IsCycle(edges, [row.calculation] + walk);
    }
  }

  ghost predicate Acyclic(rows: set<Row>) {
    forall run :: !HasCycle(Inputs(rows, run))
  }

  /** Checking only the new rows decides whether the whole table is acyclic. */
  lemma {:induction false} CheckDecides(rows: set<Row>, unchecked: set<Row>)
    requires unchecked <= rows && Acyclic(rows - unchecked)
    ensures Acyclic(rows) <==> forall r | r in unchecked :: !ClosesCycle(rows, r)
  {
    hide HasCycle, Reaches;
    forall r | r in unchecked && ClosesCycle(rows, r) ensures !Acyclic(rows) {
      ClosingIsCyclic(rows, r);
    }
    if forall r | r in unchecked :: !ClosesCycle(rows, r) {
      forall run ensures !HasCycle(Inputs(rows, run)) {
        var before, edges := Inputs(rows - unchecked, run), Inputs(rows, run);
        assert before <= edges;
        forall e | e in edges && e !in before ensures e.0 != e.1 && !Reaches(edges, e.1, e.0) {
          var r :| r in rows && r.run == run && (r.calculation, r.input) == e;
          assert r in unchecked;
        }
        NewEdgesMakeNoCycle(before, edges);
      }
    }
  }

  // ----- every reachable state -----

  /** A transaction holds the lock of every run it has inserted edges for. */
  ghost predicate HoldsLocks(s: State, t: nat)
    requires t in s.txns
  {
    forall r | r in s.txns[t].rows :: r.run in s.locks && s.locks[r.run] == t
  }

  ghost predicate TxnSound(s: State, t: nat)
    requires t in s.txns
  {
    var txn := s.txns[t];
    && txn.unchecked <= txn.rows
    && HoldsLocks(s, t)
    && Acyclic(s.rows + (txn.rows - txn.unchecked))
  }

  ghost predicate Sound(s: State) {
    && Acyclic(s.rows)
    && forall t | t in s.txns :: TxnSound(s, t)
  }

  lemma {:induction false} FewerStayAcyclic(rows: set<Row>, more: set<Row>)
    requires rows <= more && Acyclic(more)
    ensures Acyclic(rows)
  {
    forall run ensures !HasCycle(Inputs(rows, run)) {
      assert Inputs(rows, run) <= Inputs(more, run);
      if walk :| IsCycle(Inputs(rows, run), walk) {
        WalkInMore(Inputs(rows, run), Inputs(more, run), walk);
        assert IsCycle(Inputs(more, run), walk);
      }
    }
  }

  /** In a sound state the check at commit fails exactly when the transaction would publish a cycle. */
  lemma {:induction false} CheckIsExact(s: State, t: nat)
    requires t in s.txns && TxnSound(s, t)
    ensures PassesCheck(s, t) <==> Acyclic(s.rows + s.txns[t].rows)
  {
    hide Acyclic, ClosesCycle;
    var txn := s.txns[t];
    var rows := s.rows + txn.rows;
    FewerStayAcyclic(rows - txn.unchecked, s.rows + (txn.rows - txn.unchecked));
    CheckDecides(rows, txn.unchecked);
  }

  /** Rows of runs under different locks never share a run, so their acyclicity combines. */
  lemma {:induction false} DisjointRunsStayAcyclic(rows: set<Row>, mine: set<Row>, yours: set<Row>)
    requires Acyclic(rows + mine) && Acyclic(rows + yours)
    requires forall a, b | a in mine && b in yours :: a.run != b.run
    ensures Acyclic(rows + mine + yours)
  {
    hide HasCycle;
    forall run ensures !HasCycle(Inputs(rows + mine + yours, run)) {
      if r :| r in mine && r.run == run {
        assert Inputs(rows + mine + yours, run) == Inputs(rows + mine, run);
      } else {
        assert Inputs(rows + mine + yours, run) == Inputs(rows + yours, run);
      }
    }
  }

  lemma {:induction false} ReleaseKeepsSound(s: State, t: nat)
    requires Acyclic(s.rows)
    requires forall u | u in s.txns && u != t :: TxnSound(s, u)
    ensures Sound(Release(s, t))
  {
    hide Acyclic;
    var after := Release(s, t);
    forall u | u in after.txns ensures TxnSound(after, u) {
      assert TxnSound(s, u);
    }
  }

  lemma {:induction false} InsertKeepsSound(s: State, t: nat, row: Row)
    requires Sound(s) && t in s.txns && !MustWait(s, t, row) && HasRunRow(s, row.run, row.dataset)
    ensures Sound(Inserted(s, t, row))
  {
    hide Acyclic;
    var after, txn := Inserted(s, t, row), s.txns[t];
    forall u | u in after.txns ensures TxnSound(after, u) {
      assert TxnSound(s, u);
      if u == t {
        FewerStayAcyclic(after.rows + (after.txns[t].rows - after.txns[t].unchecked),
                         s.rows + (txn.rows - txn.unchecked));
      }
    }
  }

  lemma {:induction false} PublishKeepsSound(s: State, t: nat)
    requires Sound(s) && t in s.txns && PassesCheck(s, t)
    ensures Sound(Published(s, t))
  {
    hide Acyclic, PassesCheck;
    CheckIsExact(s, t);
    var mine := s.txns[t].rows;
    var middle := s.(records := s.records + s.txns[t].records, rows := s.rows + mine);
    forall u | u in middle.txns && u != t ensures TxnSound(middle, u) {
      var txn := s.txns[u];
      assert TxnSound(s, u) && TxnSound(s, t);
      var yours := txn.rows - txn.unchecked;
      assert forall a, b | a in mine && b in yours :: a.run != b.run;
      DisjointRunsStayAcyclic(s.rows, mine, yours);
    }
    ReleaseKeepsSound(middle, t);
  }

  lemma {:induction false} CheckNowKeepsSound(s: State, t: nat)
    requires Sound(s) && t in s.txns && PassesCheck(s, t)
    ensures Sound(s.(txns := s.txns[t := s.txns[t].(unchecked := {})]))
  {
    hide Acyclic, PassesCheck;
    CheckIsExact(s, t);
    var after := s.(txns := s.txns[t := s.txns[t].(unchecked := {})]);
    forall u | u in after.txns ensures TxnSound(after, u) {
      assert TxnSound(s, u);
      if u == t {
        assert after.txns[t].rows - {} == s.txns[t].rows;
      }
    }
  }

  /** Every record belongs to a run row, so an allowed edge has one to lock. */
  ghost predicate RecordsHaveRuns(s: State) {
    && (forall r | r in s.records :: HasRunRow(s, r.run, r.dataset))
    && (forall t, r | t in s.txns && r in s.txns[t].records :: HasRunRow(s, r.run, r.dataset))
  }

  lemma {:induction false} RecordsKeepRuns(s: State, step: Step)
    requires RecordsHaveRuns(s)
    ensures RecordsHaveRuns(Next(s, step))
  {
    hide PassesCheck, Allowed, MustWait;
  }

  lemma {:induction false} NextKeepsSound(s: State, step: Step)
    requires Sound(s) && RecordsHaveRuns(s)
    ensures Sound(Next(s, step))
  {
    hide Acyclic, PassesCheck;
    match step
    case StartRun(run, dataset) =>
      assert forall u | u in s.txns :: TxnSound(s, u) && TxnSound(Next(s, step), u);
    case Begin(t) =>
      var after := Next(s, step);
      assert s.rows + ({} - {}) == s.rows;
      assert forall u | u in s.txns :: TxnSound(s, u) && TxnSound(after, u);
    case AddRecord(t, record) =>
      ReleaseKeepsSound(s, t);
      assert forall u | u in s.txns :: TxnSound(s, u) && (u in Next(s, step).txns ==> TxnSound(Next(s, step), u));
    case Insert(t, row) =>
      ReleaseKeepsSound(s, t);
      if t in s.txns && !MustWait(s, t, row) && Allowed(s, t, row) {
        InsertKeepsSound(s, t, row);
      }
    case CheckNow(t) =>
      ReleaseKeepsSound(s, t);
      if t in s.txns && PassesCheck(s, t) {
        CheckNowKeepsSound(s, t);
      }
    case Commit(t) =>
      ReleaseKeepsSound(s, t);
      if t in s.txns && PassesCheck(s, t) {
        PublishKeepsSound(s, t);
      }
    case Rollback(t) =>
      ReleaseKeepsSound(s, t);
  }

  lemma {:induction false} NoRowsAcyclic()
    ensures Acyclic({})
  {
    forall run ensures !HasCycle(Inputs({}, run)) {
      assert Inputs({}, run) == {};
      OrderedHasNoCycle([], {}, {});
    }
  }

  /** Over every interleaving of transactions, the committed dependencies of every run stay acyclic. */
  lemma {:induction false} AlwaysSound(steps: seq<Step>)
    ensures Sound(After(steps)) && RecordsHaveRuns(After(steps))
  {
    if steps == [] {
      NoRowsAcyclic();
    } else {
      hide Sound, RecordsHaveRuns;
      AlwaysSound(steps[..|steps| - 1]);
      NextKeepsSound(After(steps[..|steps| - 1]), steps[|steps| - 1]);
      RecordsKeepRuns(After(steps[..|steps| - 1]), steps[|steps| - 1]);
    }
  }

  lemma {:induction false} CommittedAlwaysAcyclic(steps: seq<Step>)
    ensures Acyclic(After(steps).rows)
  {
    AlwaysSound(steps);
  }

  // ----- agreement with the batch check -----

  ghost predicate EndsKnown(records: set<Record>, r: Row) {
    && r.calculation != r.input
    && Record(r.run, r.dataset, r.calculation) in records && Record(r.run, r.dataset, r.input) in records
  }

  /** Every edge joins two different recorded calculations; no lock outlives its transaction. */
  ghost predicate Tidy(s: State) {
    && (forall r | r in s.rows :: EndsKnown(s.records, r))
    && (forall t, r | t in s.txns && r in s.txns[t].rows :: EndsKnown(s.records + s.txns[t].records, r))
    && (forall run | run in s.locks :: s.locks[run] in s.txns)
  }

  lemma {:induction false} NextKeepsTidy(s: State, step: Step)
    requires Tidy(s)
    ensures Tidy(Next(s, step))
  {
    hide PassesCheck, MustWait, HasRunRow, RecordAllowed;
  }

  lemma {:induction false} AlwaysTidy(steps: seq<Step>)
    ensures Tidy(After(steps))
  {
    if steps != [] {
      hide Tidy;
      AlwaysTidy(steps[..|steps| - 1]);
      NextKeepsTidy(After(steps[..|steps| - 1]), steps[|steps| - 1]);
    }
  }

  ghost function Calculations(s: State, run: string): set<string> {
    set r | r in s.records && r.run == run :: r.calculation
  }

  /** The batch check accepts every committed run, however its edges are listed, as long as no two labels collide;
      between identifiers none do unless an edge is listed twice. */
  lemma {:induction false} BatchCheckAccepts(steps: seq<Step>, run: string, edges: seq<(string, string)>)
    requires K.EdgeSet(edges) == Inputs(After(steps).rows, run)
    ensures K.Verdict(Calculations(After(steps), run), edges).None? <==> NoDuplicates(K.Labels(edges))
    ensures (forall c | c in Calculations(After(steps), run) :: K.IsIdentifier(c)) ==>
              (K.Verdict(Calculations(After(steps), run), edges).None? <==> NoDuplicates(edges))
  {
    var s := After(steps);
    CommittedAlwaysAcyclic(steps);
    AlwaysTidy(steps);
    hide After, HasCycle;
    forall e | e in edges ensures e.0 in Calculations(s, run) && e.1 in Calculations(s, run) && e.0 != e.1 {
      assert e in Inputs(s.rows, run);
      var r :| r in s.rows && r.run == run && (r.calculation, r.input) == e;
      assert EndsKnown(s.records, r);
    }
    K.AcceptedExactlyWhenAcyclic(Calculations(s, run), edges);
  }

  // ----- what each step does -----

  /** What a transaction sees: the committed rows and its own. */
  function SeenRows(s: State, t: nat): set<Row>
    requires t in s.txns
  {
    s.rows + s.txns[t].rows
  }

  /** The new row fits the keys and constraints of the table. */
  ghost predicate Fits(rows: set<Row>, records: set<Record>, row: Row) {
    && row.calculation != row.input && row.ordinal >= 0
    && Record(row.run, row.dataset, row.calculation) in records
    && Record(row.run, row.dataset, row.input) in records
    && (forall r | r in rows && r.run == row.run && r.calculation == row.calculation ::
          r.ordinal != row.ordinal && r.input != row.input)
  }

  /** An insert waits exactly while another transaction holds the row of its run. Otherwise a row that fits joins what
      its transaction sees, whose check is then due and whose run it holds; any other row ends the transaction. */
  lemma {:induction false} InsertIsExact(s: State, t: nat, row: Row)
    requires t in s.txns
    ensures var after := Next(s, Insert(t, row));
      var owned := row.run in s.runs && s.runs[row.run] == row.dataset;
      var waits := owned && row.run in s.locks && s.locks[row.run] != t;
      var fits := Fits(SeenRows(s, t), s.records + s.txns[t].records, row);
      && (waits ==> after == s)
      && (!waits && !fits <==> t !in after.txns)
      && (!waits && fits ==>
            && SeenRows(after, t) == SeenRows(s, t) + {row} && after.txns[t].unchecked == s.txns[t].unchecked + {row}
            && after.txns[t].records == s.txns[t].records
            && (owned ==> row.run in after.locks && after.locks[row.run] == t))
      && after.rows == s.rows && after.records == s.records && after.runs == s.runs
      && (forall u | u in s.txns && u != t :: u in after.txns && after.txns[u] == s.txns[u])
  {
    assert SeenRows(s, t) == s.rows + s.txns[t].rows;
  }

  /** A commit ends its transaction. It publishes all that the transaction has inserted exactly when the dependencies
      of every run then have no cycle, and nothing otherwise. */
  lemma {:induction false} CommitIsExact(steps: seq<Step>, t: nat)
    requires t in After(steps).txns
    ensures var s, after := After(steps), Next(After(steps), Commit(t));
      && t !in after.txns
      && (forall u | u in s.txns && u != t :: u in after.txns && after.txns[u] == s.txns[u])
      && (if forall run :: !HasCycle(Inputs(SeenRows(s, t), run))
          then after.rows == SeenRows(s, t) && after.records == s.records + s.txns[t].records
          else after.rows == s.rows && after.records == s.records)
  {
    var s := After(steps);
    AlwaysSound(steps);
    assert TxnSound(s, t);
    hide After, Sound, TxnSound, HasCycle;
    CheckIsExact(s, t);
    hide PassesCheck;
  }

  // ----- keys -----

  /** No calculation lists an input twice or two inputs at one position. */
  ghost predicate KeysHold(rows: set<Row>) {
    forall a, b | a in rows && b in rows && a.run == b.run && a.calculation == b.calculation ::
      a.ordinal == b.ordinal || a.input == b.input ==> a == b
  }

  ghost predicate AllKeysHold(s: State) {
    KeysHold(s.rows) && forall t | t in s.txns :: KeysHold(SeenRows(s, t))
  }

  lemma {:induction false} PublishKeepsKeys(s: State, t: nat, u: nat)
    requires AllKeysHold(s) && t in s.txns && u in s.txns && t != u && HoldsLocks(s, t) && HoldsLocks(s, u)
    ensures KeysHold(SeenRows(s, t) + s.txns[u].rows)
  {
    assert KeysHold(SeenRows(s, t)) && KeysHold(SeenRows(s, u));
    assert forall a, b | a in s.txns[t].rows && b in s.txns[u].rows :: a.run != b.run;
  }

  lemma {:induction false} InsertKeepsKeys(s: State, t: nat, row: Row)
    requires AllKeysHold(s) && t in s.txns
    ensures AllKeysHold(Next(s, Insert(t, row)))
  {
    var after := Next(s, Insert(t, row));
    InsertIsExact(s, t, row);
    assert forall u | u in after.txns :: u in s.txns by {
      hide Allowed, MustWait;
    }
    hide Next;
    forall u | u in after.txns ensures KeysHold(SeenRows(after, u)) {
      assert KeysHold(SeenRows(s, u));
    }
  }

  lemma {:induction false} CommitKeepsKeys(s: State, t: nat)
    requires Sound(s) && AllKeysHold(s) && t in s.txns
    ensures AllKeysHold(Published(s, t))
  {
    hide Acyclic;
    var after := Published(s, t);
    assert TxnSound(s, t) && KeysHold(SeenRows(s, t));
    forall u | u in after.txns ensures KeysHold(SeenRows(after, u)) {
      assert TxnSound(s, u);
      hide AllKeysHold, HoldsLocks, KeysHold, Sound;
      PublishKeepsKeys(s, t, u);
      assert SeenRows(after, u) == SeenRows(s, t) + s.txns[u].rows;
    }
    hide KeysHold, Sound;
  }

  lemma {:induction false} OthersKeepKeys(s: State, after: State)
    requires AllKeysHold(s) && after.rows == s.rows
    requires forall u | u in after.txns ::
               if u in s.txns then after.txns[u].rows == s.txns[u].rows else after.txns[u].rows == {}
    ensures AllKeysHold(after)
  {
    hide KeysHold;
    forall u | u in after.txns ensures KeysHold(SeenRows(after, u)) {
      assert SeenRows(after, u) == if u in s.txns then SeenRows(s, u) else s.rows;
    }
  }

  lemma {:induction false} NextKeepsKeys(s: State, step: Step)
    requires Sound(s) && AllKeysHold(s)
    ensures AllKeysHold(Next(s, step))
  {
    hide Sound, AllKeysHold, PassesCheck, RecordAllowed, HasRunRow;
    if step.Insert? && step.txn in s.txns {
      InsertKeepsKeys(s, step.txn, step.row);
    } else if step.Commit? && step.txn in s.txns && PassesCheck(s, step.txn) {
      CommitKeepsKeys(s, step.txn);
    } else {
      OthersKeepKeys(s, Next(s, step));
    }
  }

  /** Over every interleaving the committed rows keep the table's keys. */
  lemma {:induction false} CommittedKeysHold(steps: seq<Step>)
    ensures AllKeysHold(After(steps))
  {
    if steps != [] {
      hide Sound, AllKeysHold;
      CommittedKeysHold(steps[..|steps| - 1]);
      AlwaysSound(steps[..|steps| - 1]);
      NextKeepsKeys(After(steps[..|steps| - 1]), steps[|steps| - 1]);
    }
  }

  // ----- the triggers at work -----

  class Ledger {
    var runs: map<string, string>
    var records: set<Record>
    var rows: set<Row>
    var txns: map<nat, Txn>
    var locks: map<string, nat>

    ghost function Now(): State
      reads this
    {
      State(runs, records, rows, txns, locks)
    }

    constructor ()
      ensures Now() == EMPTY
    {
      runs, records, rows, txns, locks := map[], {}, {}, map[], map[];
    }

    method End(t: nat)
      modifies this
      ensures Now() == Release(old(Now()), t)
    {
      txns := txns - {t};
      locks := map run | run in locks && locks[run] != t :: locks[run];
    }

    /** The trigger locks the run row before the row is inserted; the constraints come after. */
    method InsertDependency(t: nat, row: Row)
      requires t in txns
      modifies this
      ensures Now() == Next(old(Now()), Insert(t, row))
    {
      if row.run in runs && runs[row.run] == row.dataset {
        if row.run in locks && locks[row.run] != t {
          return;
        }
        locks := locks[row.run := t];
      }
      if Allowed(State(runs, records, rows, txns, locks), t, row) {
        var txn := txns[t];
        txns := txns[t := txn.(rows := txn.rows + {row}, unchecked := txn.unchecked + {row})];
      } else {
        End(t);
      }
    }

    /** The deferred trigger, once for each new row. */
    method RejectCycles(t: nat) returns (ok: bool)
      requires t in txns
      ensures ok <==> PassesCheck(Now(), t)
    {
      hide Reaches;
      var visible, due := rows + txns[t].rows, txns[t].unchecked;
      while due != {}
        invariant due <= txns[t].unchecked
        invariant forall r | r in txns[t].unchecked && r !in due :: !ClosesCycle(visible, r)
        decreases |due|
      {
        var r :| r in due;
        due := due - {r};
        var path := DependencyPath(visible, r.run, r.input);
        if r.calculation in path {
          return false;
        }
      }
      ok := true;
    }

    method CommitTransaction(t: nat)
      requires t in txns
      modifies this
      ensures Now() == Next(old(Now()), Commit(t))
    {
      hide PassesCheck;
      var ok := RejectCycles(t);
      if ok {
        records, rows := records + txns[t].records, rows + txns[t].rows;
      }
      End(t);
    }
  }
}
