/** The embedding build: a table filled batch by batch until nothing is missing, then reconciled. */
module EmbeddingBuild {
  import opened Collation
  import opened Sequences
  import opened Sorting
  import opened Text
  import opened Wrappers

  datatype Chunk = Chunk(documentId: string, chunkId: string, contentHash: string, title: string, path: string,
                         text: string)

  /** A model's contract; `hash` is the hash of what the other columns leave out. */
  datatype Model = Model(id: string, version: string, dimension: int, metric: string,
                         approvalRecord: string, approvedAt: int, hash: string)

  /** A stored embedding of the dataset: the chunk and model that it names, and its vector's length. */
  datatype Row = Row(documentId: string, chunkId: string, contentHash: string, modelId: string, modelVersion: string,
                     dimension: int, vectorLength: int)

  type Rows = map<string, Row>

  // ----- queries -----

  predicate SameChunk(r: Row, c: Chunk) {
    r.documentId == c.documentId && r.chunkId == c.chunkId && r.contentHash == c.contentHash
  }

  predicate OfModel(r: Row, m: Model) {
    r.modelId == m.id && r.modelVersion == m.version
  }

  predicate Exact(r: Row, c: Chunk, m: Model) {
    SameChunk(r, c) && OfModel(r, m) && r.dimension == m.dimension
  }

  /** The ids of the rows that match a chunk exactly. */
  function Matches(rows: Rows, c: Chunk, m: Model): set<string> {
    set id | id in rows && Exact(rows[id], c, m)
  }

  /** The eligible chunks without an exact match. */
  function Missing(eligible: seq<Chunk>, rows: Rows, m: Model): seq<Chunk> {
    if eligible == [] then []
    else
      var last := eligible[|eligible| - 1];
      Missing(eligible[..|eligible| - 1], rows, m) + if Matches(rows, last, m) == {} then [last] else []
  }

  /** The size of the join of eligible chunks with their exact rows. */
  function ExactCount(eligible: seq<Chunk>, rows: Rows, m: Model): nat {
    if eligible == [] then 0
    else ExactCount(eligible[..|eligible| - 1], rows, m) + |Matches(rows, eligible[|eligible| - 1], m)|
  }

  function ModelRows(rows: Rows, m: Model): set<string> {
    set id | id in rows && OfModel(rows[id], m)
  }

  function Orphans(eligible: seq<Chunk>, rows: Rows, m: Model): set<string> {
    set id | id in ModelRows(rows, m) && !exists c :: c in eligible && Exact(rows[id], c, m)
  }

  /** Rows whose chunk now has other content, one for each such chunk. */
  function Stale(chunks: set<Chunk>, rows: Rows, m: Model): set<(string, Chunk)> {
    set id, c | id in ModelRows(rows, m) && c in chunks
                && rows[id].documentId == c.documentId && rows[id].chunkId == c.chunkId
                   && rows[id].contentHash != c.contentHash :: (id, c)
  }

  function WrongDimension(rows: Rows, m: Model): set<string> {
    set id | id in ModelRows(rows, m) && (rows[id].dimension != m.dimension || rows[id].vectorLength != m.dimension)
  }

  // ----- duplicates, group by group -----

  type Group = (string, string, string)

  function GroupOf(r: Row): Group {
    (r.documentId, r.chunkId, r.contentHash)
  }

  function Groups(rows: Rows, m: Model): set<Group> {
    set id | id in ModelRows(rows, m) :: GroupOf(rows[id])
  }

  function InGroup(rows: Rows, m: Model, g: Group): set<string> {
    set id | id in ModelRows(rows, m) && GroupOf(rows[id]) == g
  }

  /** What a group adds to the sum: its rows beyond the first. */
  function Surplus(rows: Rows, m: Model, g: Group): nat {
    if |InGroup(rows, m, g)| > 1 then |InGroup(rows, m, g)| - 1 else 0
  }

  function Surpluses(rows: Rows, m: Model, groups: set<Group>): map<Group, nat> {
    map g | g in groups :: Surplus(rows, m, g)
  }

  lemma {:induction false} NoSurplus(rows: Rows, m: Model, groups: set<Group>)
    ensures SumOver(Surpluses(rows, m, groups)) == 0 <==> forall g | g in groups :: |InGroup(rows, m, g)| <= 1
    decreases |groups|
  {
    if groups == {} {
      assert Surpluses(rows, m, groups) == map[];
    } else {
      var g :| g in groups;
      SumInAnyOrder(Surpluses(rows, m, groups), g);
      assert Surpluses(rows, m, groups) - {g} == Surpluses(rows, m, groups - {g});
      NoSurplus(rows, m, groups - {g});
    }
  }

  ghost function DuplicateCount(rows: Rows, m: Model): nat {
    SumOver(Surpluses(rows, m, Groups(rows, m)))
  }

  // ----- what clean counts mean -----

  /** The chunk table's keys: no two eligible chunks share their ids. */
  ghost predicate Distinct(eligible: seq<Chunk>) {
    forall i, j | 0 <= i < j < |eligible| ::
        (eligible[i].documentId, eligible[i].chunkId) != (eligible[j].documentId, eligible[j].chunkId)
  }

  /** The chunk has exactly one row of the model, and that row is exact. */
  ghost predicate HasOneRow(rows: Rows, c: Chunk, m: Model) {
    exists id :: id in Matches(rows, c, m) && ModelMatches(rows, c, m) == {id}
  }

  /** The row has exactly one eligible chunk, and matches it exactly. */
  ghost predicate HasOneChunk(eligible: seq<Chunk>, r: Row, m: Model) {
    exists c :: c in eligible && Exact(r, c, m) && forall d | d in eligible && SameChunk(r, d) :: d == c
  }

  /** Eligible chunks and rows of the model correspond one to one. */
  ghost predicate InBijection(eligible: seq<Chunk>, rows: Rows, m: Model) {
    && (forall c | c in eligible :: HasOneRow(rows, c, m))
    && (forall id | id in ModelRows(rows, m) :: HasOneChunk(eligible, rows[id], m))
  }

  /** All rows of the model for a chunk, whatever their dimension. */
  ghost function ModelMatches(rows: Rows, c: Chunk, m: Model): set<string> {
    set id | id in ModelRows(rows, m) && SameChunk(rows[id], c)
  }

  lemma {:induction false} NoneMissing(eligible: seq<Chunk>, rows: Rows, m: Model)
    ensures forall c :: c in Missing(eligible, rows, m) <==> c in eligible && Matches(rows, c, m) == {}
  {
    if eligible != [] {
      NoneMissing(eligible[..|eligible| - 1], rows, m);
      assert eligible == eligible[..|eligible| - 1] + [eligible[|eligible| - 1]];
    }
  }

  lemma {:induction false} AtMostOne<T>(s: set<T>)
    requires |s| <= 1
    ensures forall a, b | a in s && b in s :: a == b
  {
    forall a, b | a in s && b in s ensures a == b {
      if a != b {
        assert {a, b} <= s && |{a, b}| == 2;
        Fits({a, b}, s);
      }
    }
  }

  lemma {:induction false} Fits<T>(a: set<T>, b: set<T>)
    requires a <= b
    ensures |a| <= |b|
  {
    assert b == a + (b - a);
  }

  lemma {:induction false} DistinctChunks(eligible: seq<Chunk>, c: Chunk, d: Chunk)
    requires Distinct(eligible) && c in eligible && d in eligible && c.documentId == d.documentId
             && c.chunkId == d.chunkId
    ensures c == d
  {
    var i :| 0 <= i < |eligible| && eligible[i] == c;
    var j :| 0 <= j < |eligible| && eligible[j] == d;
  }

  /** Nothing missing, no orphan and no duplicate: together they say exactly that rows and chunks agree. */
  lemma {:induction false} CleanCountsMeanBijection(eligible: seq<Chunk>, rows: Rows, m: Model)
    requires Distinct(eligible)
    ensures |Missing(eligible, rows, m)| == 0 && |Orphans(eligible, rows, m)| == 0 && DuplicateCount(rows, m) == 0 <==>
              InBijection(eligible, rows, m)
  {
    NoneMissing(eligible, rows, m);
    NoSurplus(rows, m, Groups(rows, m));
    hide Missing, SumOver, Distinct;
    var missing := Missing(eligible, rows, m);
    assert |missing| > 0 ==> missing[0] in missing;
    if |Missing(eligible, rows, m)| == 0 && |Orphans(eligible, rows, m)| == 0 && DuplicateCount(rows, m) == 0 {
      CleanGivesBijection(eligible, rows, m);
    }
    if InBijection(eligible, rows, m) {
      BijectionIsClean(eligible, rows, m);
    }
  }

  lemma {:induction false} CleanGivesBijection(eligible: seq<Chunk>, rows: Rows, m: Model)
    requires Distinct(eligible)
    requires forall c | c in eligible :: Matches(rows, c, m) != {}
    requires Orphans(eligible, rows, m) == {}
    requires forall g | g in Groups(rows, m) :: |InGroup(rows, m, g)| <= 1
    ensures InBijection(eligible, rows, m)
  {
    forall c | c in eligible ensures HasOneRow(rows, c, m) {
      var id :| id in Matches(rows, c, m);
      assert id in ModelRows(rows, m) && GroupOf(rows[id]) in Groups(rows, m);
      AtMostOne(InGroup(rows, m, GroupOf(rows[id])));
      assert ModelMatches(rows, c, m) == InGroup(rows, m, GroupOf(rows[id]));
      assert id in ModelMatches(rows, c, m);
      assert ModelMatches(rows, c, m) == {id};
    }
    forall id | id in ModelRows(rows, m) ensures HasOneChunk(eligible, rows[id], m) {
      assert id !in Orphans(eligible, rows, m);
      var c :| c in eligible && Exact(rows[id], c, m);
      forall d | d in eligible && SameChunk(rows[id], d) ensures d == c {
        DistinctChunks(eligible, c, d);
      }
    }
  }

  lemma {:induction false} BijectionIsClean(eligible: seq<Chunk>, rows: Rows, m: Model)
    requires InBijection(eligible, rows, m)
    ensures forall c | c in eligible :: Matches(rows, c, m) != {}
    ensures Orphans(eligible, rows, m) == {}
    ensures forall g | g in Groups(rows, m) :: |InGroup(rows, m, g)| <= 1
  {
    forall c | c in eligible ensures Matches(rows, c, m) != {} {
      assert HasOneRow(rows, c, m);
    }
    forall id | id in ModelRows(rows, m) ensures exists c :: c in eligible && Exact(rows[id], c, m) {
      assert HasOneChunk(eligible, rows[id], m);
    }
    forall g | g in Groups(rows, m) ensures |InGroup(rows, m, g)| <= 1 {
      var id :| id in ModelRows(rows, m) && GroupOf(rows[id]) == g;
      assert HasOneChunk(eligible, rows[id], m);
      GroupIsOneRow(eligible, rows, m, id);
    }
  }

  lemma {:induction false} GroupIsOneRow(eligible: seq<Chunk>, rows: Rows, m: Model, id: string)
    requires id in ModelRows(rows, m) && HasOneChunk(eligible, rows[id], m)
    requires forall c | c in eligible :: HasOneRow(rows, c, m)
    ensures |InGroup(rows, m, GroupOf(rows[id]))| <= 1
  {
    var c :| c in eligible && Exact(rows[id], c, m);
    assert HasOneRow(rows, c, m);
    var only :| only in Matches(rows, c, m) && ModelMatches(rows, c, m) == {only};
    assert InGroup(rows, m, GroupOf(rows[id])) == ModelMatches(rows, c, m);
  }

  // ----- appending -----

  function NewRow(c: Chunk, m: Model): Row {
    Row(c.documentId, c.chunkId, c.contentHash, m.id, m.version, m.dimension, m.dimension)
  }

  /** Inserting one row for each chunk, except where the id is taken. */
  function Appended(rows: Rows, pending: seq<Chunk>, m: Model, id: (Model, Chunk) -> string): Rows {
    if pending == [] then rows
    else
      var before, last := Appended(rows, pending[..|pending| - 1], m, id), pending[|pending| - 1];
      if id(m, last) in before then before else before[id(m, last) := NewRow(last, m)]
  }

  /** How many of the rows are returned as inserted. */
  function InsertedCount(rows: Rows, pending: seq<Chunk>, m: Model, id: (Model, Chunk) -> string): nat {
    if pending == [] then 0
    else
      var before, last := Appended(rows, pending[..|pending| - 1], m, id), pending[|pending| - 1];
      InsertedCount(rows, pending[..|pending| - 1], m, id) + if id(m, last) in before then 0 else 1
  }

  lemma {:induction false} AppendKeepsRows(rows: Rows, pending: seq<Chunk>, m: Model, id: (Model, Chunk) -> string)
    ensures forall i | i in rows :: i in Appended(rows, pending, m, id) && Appended(rows, pending, m, id)[i] == rows[i]
    ensures |Appended(rows, pending, m, id)| == |rows| + InsertedCount(rows, pending, m, id)
  {
    if pending != [] {
      AppendKeepsRows(rows, pending[..|pending| - 1], m, id);
    }
  }

  lemma {:induction false} MatchesAfter(rows: Rows, i: string, r: Row, c: Chunk, m: Model)
    requires i !in rows
    ensures Matches(rows[i := r], c, m) == Matches(rows, c, m) + if Exact(r, c, m) then {i} else {}
  {}

  /** One new row for a missing chunk takes exactly that chunk off the missing list. */
  lemma {:induction false} OneLessMissing(eligible: seq<Chunk>, rows: Rows, m: Model, i: string, c: Chunk)
    requires Distinct(eligible) && i !in rows && Matches(rows, c, m) == {}
    requires forall d | d in eligible && SameChunk(NewRow(c, m), d) :: d == c
    ensures |Missing(eligible, rows, m)| ==
              |Missing(eligible, rows[i := NewRow(c, m)], m)| + (if c in eligible then 1 else 0)
  {
    if eligible != [] {
      var front, last := eligible[..|eligible| - 1], eligible[|eligible| - 1];
      assert eligible == front + [last];
      assert Distinct(front) by { LastIsNew(eligible); }
      OneLessMissing(front, rows, m, i, c);
      MatchesAfter(rows, i, NewRow(c, m), last, m);
      assert Exact(NewRow(c, m), last, m) <==> last == c;
      LastIsNew(eligible);
      hide Distinct, Matches, Exact, SameChunk;
    }
  }

  lemma {:induction false} LastIsNew(eligible: seq<Chunk>)
    requires Distinct(eligible) && eligible != []
    ensures Distinct(eligible[..|eligible| - 1]) && eligible[|eligible| - 1] !in eligible[..|eligible| - 1]
  {
    var front := eligible[..|eligible| - 1];
    assert forall k | 0 <= k < |front| :: eligible[k] == front[k];
  }

  /** A batch of missing chunks, each once. */
  ghost predicate IsBatch(eligible: seq<Chunk>, rows: Rows, m: Model, batch: seq<Chunk>) {
    && (forall c | c in batch :: c in Missing(eligible, rows, m))
    && NoDuplicates(batch)
  }

  /** Appending a batch lowers the missing count by exactly the number of rows inserted, and every chunk
      that comes after in the batch is still missing. */
  lemma {:induction false} AppendLowersMissing(eligible: seq<Chunk>, rows: Rows, batch: seq<Chunk>, m: Model,
                                               id: (Model, Chunk) -> string)
    requires Distinct(eligible) && IsBatch(eligible, rows, m, batch)
    ensures |Missing(eligible, rows, m)| ==
              |Missing(eligible, Appended(rows, batch, m, id), m)| + InsertedCount(rows, batch, m, id)
    ensures forall c | c in Missing(eligible, rows, m) && c !in batch ::
              Matches(Appended(rows, batch, m, id), c, m) == {}
  {
    NoneMissing(eligible, rows, m);
    if batch != [] {
      var front, last := batch[..|batch| - 1], batch[|batch| - 1];
      assert batch == front + [last];
      AppendLowersMissing(eligible, rows, front, m, id);
      var before := Appended(rows, front, m, id);
      assert last in batch && last !in front;
      forall d | d in eligible && SameChunk(NewRow(last, m), d) ensures d == last {
        DistinctChunks(eligible, d, last);
      }
      hide Missing, Distinct, IsBatch;
      if id(m, last) !in before {
        OneLessMissing(eligible, before, m, id(m, last), last);
        forall c | c in Missing(eligible, rows, m) && c !in batch
            ensures Matches(before[id(m, last) := NewRow(last, m)], c, m) == {} {
          MatchesAfter(before, id(m, last), NewRow(last, m), c, m);
          assert SameChunk(NewRow(last, m), c) ==> c == last;
        }
      }
    }
  }

  /** Without duplicates, the join counts the chunks that are not missing. */
  lemma {:induction false} ExactAndMissing(eligible: seq<Chunk>, rows: Rows, m: Model)
    requires forall c | c in eligible :: |Matches(rows, c, m)| <= 1
    ensures ExactCount(eligible, rows, m) + |Missing(eligible, rows, m)| == |eligible|
  {
    if eligible != [] {
      var front, last := eligible[..|eligible| - 1], eligible[|eligible| - 1];
      assert eligible == front + [last];
      ExactAndMissing(front, rows, m);
      assert |Matches(rows, last, m)| == 0 <==> Matches(rows, last, m) == {};
    }
  }

  /** Rows that end up one to a chunk were never more. */
  lemma {:induction false} AtMostOneBefore(eligible: seq<Chunk>, before: Rows, after: Rows, m: Model)
    requires InBijection(eligible, after, m) && forall i | i in before :: i in after && after[i] == before[i]
    ensures forall c | c in eligible :: |Matches(before, c, m)| <= 1 && |Matches(after, c, m)| <= 1
  {
    forall c | c in eligible ensures |Matches(before, c, m)| <= 1 && |Matches(after, c, m)| <= 1 {
      assert HasOneRow(after, c, m);
      var id :| id in Matches(after, c, m) && ModelMatches(after, c, m) == {id};
      Fits(Matches(before, c, m), {id});
      Fits(Matches(after, c, m), {id});
    }
  }

  /** Whenever a row's id is a chunk's own, the row matches that chunk exactly. */
  ghost predicate Consistent(rows: Rows, m: Model, id: (Model, Chunk) -> string) {
    forall i, c: Chunk | i in rows && id(m, c) == i :: Exact(rows[i], c, m)
  }

  /** Ids tell chunks apart by document, chunk and content. */
  ghost predicate Injective(m: Model, id: (Model, Chunk) -> string) {
    forall c: Chunk, d: Chunk | id(m, c) == id(m, d) :: SameChunk(NewRow(c, m), d)
  }

  /** On a consistent table with injective ids no batch stalls: every row of it is inserted. */
  lemma {:induction false} ConsistentNeverStalls(eligible: seq<Chunk>, rows: Rows, batch: seq<Chunk>, m: Model,
                                                 id: (Model, Chunk) -> string)
    requires Distinct(eligible) && IsBatch(eligible, rows, m, batch) && Consistent(rows, m, id) && Injective(m, id)
    ensures InsertedCount(rows, batch, m, id) == |batch| && Consistent(Appended(rows, batch, m, id), m, id)
  {
    if batch != [] {
      var front, last := batch[..|batch| - 1], batch[|batch| - 1];
      assert batch == front + [last];
      ConsistentNeverStalls(eligible, rows, front, m, id);
      AppendLowersMissing(eligible, rows, front, m, id);
      assert last in batch && last !in front;
      var before := Appended(rows, front, m, id);
      assert id(m, last) in before ==> id(m, last) in Matches(before, last, m);
    }
  }

  // ----- what a fill leaves clean -----

  /** Every row that is new is the row of a chunk that was missing, and no chunk has got two. */
  ghost predicate OnlyFills(eligible: seq<Chunk>, before: Rows, now: Rows, m: Model) {
    && (forall i | i in now && i !in before :: exists c :: c in Missing(eligible, before, m) && now[i] == NewRow(c, m))
    && (forall i, j | i in now && j in now && i !in before && j !in before && now[i] == now[j] :: i == j)
  }

  lemma {:induction false} AppendOnlyFills(eligible: seq<Chunk>, before: Rows, now: Rows, batch: seq<Chunk>, m: Model,
                                           id: (Model, Chunk) -> string)
    requires Distinct(eligible) && IsBatch(eligible, now, m, batch) && OnlyFills(eligible, before, now, m)
    requires forall i | i in before :: i in now && now[i] == before[i]
    ensures OnlyFills(eligible, before, Appended(now, batch, m, id), m)
  {
    if batch != [] {
      hide OnlyFills, Distinct;
      var front, last := batch[..|batch| - 1], batch[|batch| - 1];
      assert batch == front + [last];
      AppendOnlyFills(eligible, before, now, front, m, id);
      AppendLowersMissing(eligible, now, front, m, id);
      AppendKeepsRows(now, front, m, id);
      var filled := Appended(now, front, m, id);
      assert last in batch && last !in front;
      MissingBefore(eligible, before, now, m, last);
      forall i | i in filled ensures filled[i] != NewRow(last, m) {
        assert i !in Matches(filled, last, m);
      }
      hide Missing, IsBatch, Matches;
      if id(m, last) !in filled {
        OneMoreFills(eligible, before, filled, m, id(m, last), last);
      }
    }
  }

  /** What is missing now was missing before rows were added. */
  lemma {:induction false} MissingBefore(eligible: seq<Chunk>, before: Rows, now: Rows, m: Model, c: Chunk)
    requires c in Missing(eligible, now, m) && forall i | i in before :: i in now && now[i] == before[i]
    ensures c in Missing(eligible, before, m)
  {
    NoneMissing(eligible, now, m);
    NoneMissing(eligible, before, m);
    hide Missing;
    assert forall i | i in Matches(before, c, m) :: i in Matches(now, c, m);
  }

  lemma {:induction false} OneMoreFills(eligible: seq<Chunk>, before: Rows, now: Rows, m: Model, i: string, c: Chunk)
    requires OnlyFills(eligible, before, now, m) && i !in now && c in Missing(eligible, before, m)
    requires forall j | j in now :: now[j] != NewRow(c, m)
    ensures OnlyFills(eligible, before, now[i := NewRow(c, m)], m)
  {
    hide Missing, NewRow;
  }

  /** The keys of the chunk table: one content for each document and chunk id. */
  ghost predicate IsTable(chunks: set<Chunk>) {
    forall c, d | c in chunks && d in chunks && c.documentId == d.documentId && c.chunkId == d.chunkId :: c == d
  }

  lemma {:induction false} FillKeepsClean(eligible: seq<Chunk>, chunks: set<Chunk>, before: Rows, now: Rows, m: Model)
    requires OnlyFills(eligible, before, now, m) && forall i | i in before :: i in now && now[i] == before[i]
    requires IsTable(chunks) && forall c | c in eligible :: c in chunks
    requires Orphans(eligible, before, m) == {} && Stale(chunks, before, m) == {}
    ensures Orphans(eligible, now, m) == {} && Stale(chunks, now, m) == {}
    ensures WrongDimension(now, m) == WrongDimension(before, m)
  {
    NoneMissing(eligible, before, m);
    hide Missing, Matches;
    forall i | i in ModelRows(now, m) ensures i !in Orphans(eligible, now, m) {
      if i in before {
        assert i !in Orphans(eligible, before, m);
      }
    }
    forall i, c | i in ModelRows(now, m) && c in chunks ensures (i, c) !in Stale(chunks, now, m) {
      if i in before {
        assert (i, c) !in Stale(chunks, before, m);
      }
    }
  }

  /** On a table without orphans a fill neither makes nor mends duplicates. */
  lemma {:induction false} FillKeepsDuplicates(eligible: seq<Chunk>, before: Rows, now: Rows, m: Model)
    requires Distinct(eligible) && OnlyFills(eligible, before, now, m) && Orphans(eligible, before, m) == {}
    requires forall i | i in before :: i in now && now[i] == before[i]
    ensures DuplicateCount(now, m) == 0 <==> DuplicateCount(before, m) == 0
  {
    NoSurplus(now, m, Groups(now, m));
    NoSurplus(before, m, Groups(before, m));
    hide SumOver;
    if DuplicateCount(now, m) == 0 {
      forall g | g in Groups(before, m) ensures |InGroup(before, m, g)| <= 1 {
        var i :| i in ModelRows(before, m) && GroupOf(before[i]) == g;
        assert i in ModelRows(now, m);
        Fits(InGroup(before, m, g), InGroup(now, m, g));
      }
    }
    if DuplicateCount(before, m) == 0 {
      forall g | g in Groups(now, m) ensures |InGroup(now, m, g)| <= 1 {
        forall i, j | i in InGroup(now, m, g) && j in InGroup(now, m, g) ensures i == j {
          if i in before && j in before {
            assert i in InGroup(before, m, g) && j in InGroup(before, m, g);
            assert GroupOf(before[i]) in Groups(before, m);
            AtMostOne(InGroup(before, m, g));
          } else {
            NewInGroup(eligible, before, now, m, i, j);
          }
        }
        AllOne(InGroup(now, m, g));
      }
    }
  }

  lemma {:induction false} AllOne<T>(s: set<T>)
    requires forall a, b | a in s && b in s :: a == b
    ensures |s| <= 1
  {
    if s != {} {
      var a :| a in s;
      assert s == {a};
    }
  }

  /** Without orphans, a row that names an eligible chunk matches it exactly. */
  lemma {:induction false} OldHasMatch(eligible: seq<Chunk>, rows: Rows, m: Model, i: string, c: Chunk)
    requires Distinct(eligible) && Orphans(eligible, rows, m) == {}
    requires i in ModelRows(rows, m) && c in eligible && SameChunk(rows[i], c)
    ensures i in Matches(rows, c, m)
  {
    assert i !in Orphans(eligible, rows, m);
    var d :| d in eligible && Exact(rows[i], d, m);
    DistinctChunks(eligible, c, d);
  }

  /** A new row shares its group with no other row. */
  lemma {:induction false} NewInGroup(eligible: seq<Chunk>, before: Rows, now: Rows, m: Model, i: string, j: string)
    requires Distinct(eligible) && OnlyFills(eligible, before, now, m) && Orphans(eligible, before, m) == {}
    requires forall k | k in before :: k in now && now[k] == before[k]
    requires i in ModelRows(now, m) && j in ModelRows(now, m) && GroupOf(now[i]) == GroupOf(now[j])
    requires i !in before || j !in before
    ensures i == j
  {
    NoneMissing(eligible, before, m);
    hide Missing, Distinct;
    var (new_one, other) := if i !in before then (i, j) else (j, i);
    var c :| c in Missing(eligible, before, m) && now[new_one] == NewRow(c, m);
    if other in before {
      OldHasMatch(eligible, before, m, other, c);
      assert false;
    } else {
      var d :| d in Missing(eligible, before, m) && now[other] == NewRow(d, m);
      DistinctChunks(eligible, c, d);
    }
  }

  /** After a complete fill of a table without orphans and stale rows, the counts that reconciliation asks for
      hold exactly when the table had no duplicates and no wrong dimensions to begin with. */
  lemma {:induction false} CleanBeforeIsCleanAfter(eligible: seq<Chunk>, chunks: set<Chunk>, before: Rows, now: Rows,
                                                   m: Model)
    requires Distinct(eligible) && OnlyFills(eligible, before, now, m) && Missing(eligible, now, m) == []
    requires forall i | i in before :: i in now && now[i] == before[i]
    requires IsTable(chunks) && forall c | c in eligible :: c in chunks
    requires Orphans(eligible, before, m) == {} && Stale(chunks, before, m) == {}
    ensures Orphans(eligible, now, m) == {} && Stale(chunks, now, m) == {}
    ensures (DuplicateCount(now, m) == 0 && WrongDimension(now, m) == {}
             && ExactCount(eligible, now, m) == |eligible|) <==>
              (DuplicateCount(before, m) == 0 && WrongDimension(before, m) == {})
  {
    FillKeepsClean(eligible, chunks, before, now, m);
    FillKeepsDuplicates(eligible, before, now, m);
    hide OnlyFills, Stale, WrongDimension;
    if DuplicateCount(now, m) == 0 {
      CleanCountsMeanBijection(eligible, now, m);
      AtMostOneBefore(eligible, now, now, m);
      ExactAndMissing(eligible, now, m);
    }
  }

  // ----- the repository -----

  function ChunkBefore(): (Chunk, Chunk) -> bool {
    (a: Chunk, b: Chunk) => if a.documentId != b.documentId then TextLeq(a.documentId, b.documentId)
                            else TextLeq(a.chunkId, b.chunkId)
  }

  /** The first missing chunks in order of document and chunk. */
  function Batch(eligible: seq<Chunk>, rows: Rows, m: Model, limit: nat): seq<Chunk> {
    var sorted := Sort(Missing(eligible, rows, m), ChunkBefore());
    if limit < |sorted| then sorted[..limit] else sorted
  }

  lemma {:induction false} MissingOnce(eligible: seq<Chunk>, rows: Rows, m: Model)
    requires Distinct(eligible)
    ensures forall i, j | 0 <= i < j < |Missing(eligible, rows, m)| ::
              Missing(eligible, rows, m)[i] != Missing(eligible, rows, m)[j]
  {
    if eligible != [] {
      var front, last := eligible[..|eligible| - 1], eligible[|eligible| - 1];
      MissingOnce(front, rows, m);
      NoneMissing(front, rows, m);
      assert forall k | 0 <= k < |front| :: eligible[k] == front[k];
      assert last !in front && last !in Missing(front, rows, m);
    }
  }

  lemma {:induction false} OnceMeansCountOne<T>(s: seq<T>)
    ensures (forall i, j | 0 <= i < j < |s| :: s[i] != s[j]) <==> forall x :: multiset(s)[x] <= 1
  {
    if s != [] {
      var front, last := s[..|s| - 1], s[|s| - 1];
      assert s == front + [last];
      OnceMeansCountOne(front);
      if forall i, j | 0 <= i < j < |s| :: s[i] != s[j] {
        assert last !in front;
      }
      if forall x :: multiset(s)[x] <= 1 {
        assert multiset(s)[last] == multiset(front)[last] + 1;
        assert last !in multiset(front);
        assert forall x :: multiset(front)[x] <= multiset(s)[x];
      }
    }
  }

  lemma {:induction false} BatchIsEligible(eligible: seq<Chunk>, rows: Rows, m: Model, batch: seq<Chunk>)
    requires IsBatch(eligible, rows, m, batch)
    ensures forall c | c in batch :: c in eligible
  {
    NoneMissing(eligible, rows, m);
  }

  lemma {:induction false} SortedMissing(eligible: seq<Chunk>, rows: Rows, m: Model, sorted: seq<Chunk>)
    requires Distinct(eligible) && multiset(sorted) == multiset(Missing(eligible, rows, m))
    ensures IsBatch(eligible, rows, m, sorted)
  {
    MissingOnce(eligible, rows, m);
    hide Missing, Distinct;
    OnceMeansCountOne(Missing(eligible, rows, m));
    OnceMeansCountOne(sorted);
    forall c | c in sorted ensures c in Missing(eligible, rows, m) {
      assert c in multiset(sorted);
    }
  }

  lemma {:induction false} BatchIsBatch(eligible: seq<Chunk>, rows: Rows, m: Model, limit: nat)
    requires Distinct(eligible) && limit > 0
    ensures IsBatch(eligible, rows, m, Batch(eligible, rows, m, limit))
    ensures |Batch(eligible, rows, m, limit)| <= limit
    ensures Batch(eligible, rows, m, limit) == [] <==> Missing(eligible, rows, m) == []
  {
    var sorted := Sort(Missing(eligible, rows, m), ChunkBefore());
    SortKeepsElements(Missing(eligible, rows, m), ChunkBefore());
    SortedMissing(eligible, rows, m, sorted);
    hide Missing, Sort, Distinct;
  }

  lemma {:induction false} ChunkOrder()
    ensures TotalPreorder(ChunkBefore())
  {
    var before := ChunkBefore();
    forall a, b ensures before(a, b) || before(b, a) {
      Total(a.documentId, b.documentId);
      Total(a.chunkId, b.chunkId);
    }
    forall a, b, c | before(a, b) && before(b, c) ensures before(a, c) {
      if a.documentId == b.documentId == c.documentId {
        Transitive(a.chunkId, b.chunkId, c.chunkId);
      } else if a.documentId != b.documentId && b.documentId != c.documentId {
        Transitive(a.documentId, b.documentId, c.documentId);
        Total(a.documentId, b.documentId);
      }
    }
  }

  /** `a` does not come after `b` by document and chunk. */
  predicate NotAfter(a: Chunk, b: Chunk) {
    if a.documentId == b.documentId then TextLeq(a.chunkId, b.chunkId) else TextLeq(a.documentId, b.documentId)
  }

  /** A batch is full, or holds all that is missing; it is in order, and no missing chunk that it leaves out comes
      before one that it takes. */
  lemma {:induction false} BatchTakesFirst(eligible: seq<Chunk>, rows: Rows, m: Model, limit: nat)
    ensures var missing, batch := Missing(eligible, rows, m), Batch(eligible, rows, m, limit);
      && |batch| == (if limit < |missing| then limit else |missing|)
      && (forall i, j | 0 <= i < j < |batch| :: NotAfter(batch[i], batch[j]))
      && (forall c | c in batch :: c in missing)
      && forall c, d | c in batch && d in missing && d !in batch :: NotAfter(c, d)
  {
    var sorted := Sort(Missing(eligible, rows, m), ChunkBefore());
    MissingInOrder(eligible, rows, m);
    hide Sort, Missing, NotAfter;
    PrefixIsFirst(sorted, if limit < |sorted| then limit else |sorted|);
  }

  lemma {:induction false} MissingInOrder(eligible: seq<Chunk>, rows: Rows, m: Model)
    ensures var missing := Missing(eligible, rows, m);
      var sorted := Sort(missing, ChunkBefore());
      && |sorted| == |missing| && (forall c :: c in sorted <==> c in missing)
      && forall i, j | 0 <= i < j < |sorted| :: NotAfter(sorted[i], sorted[j])
  {
    ChunkOrder();
    hide TextLeq, Missing;
    var missing := Missing(eligible, rows, m);
    var sorted := Sort(missing, ChunkBefore());
    SortSorts(missing, ChunkBefore());
    SameMembers(missing, sorted);
    hide Sort;
    forall i, j | 0 <= i < j < |sorted| ensures NotAfter(sorted[i], sorted[j]) {
      assert ChunkBefore()(sorted[i], sorted[j]);
    }
  }

  lemma {:induction false} PrefixIsFirst(sorted: seq<Chunk>, n: nat)
    requires n <= |sorted| && forall i, j | 0 <= i < j < |sorted| :: NotAfter(sorted[i], sorted[j])
    ensures forall c, d | c in sorted[..n] && d in sorted && d !in sorted[..n] :: NotAfter(c, d)
  {
    hide NotAfter;
    var batch, rest := sorted[..n], sorted[n..];
    assert sorted == batch + rest;
    forall c, d | c in batch && d in rest ensures NotAfter(c, d) {
      var i, j :| 0 <= i < |batch| && batch[i] == c && 0 <= j < |rest| && rest[j] == d;
      assert sorted[i] == c && sorted[n + j] == d;
    }
  }

  datatype Preflight = Preflight(building: bool, eligible: nat, exact: nat, missing: nat, stale: nat, orphan: nat)

  datatype Reconciliation = Reconciliation(eligible: nat, exact: nat, missing: nat, duplicate: nat, stale: nat,
                                           orphan: nat, wrongDimension: nat)

  datatype BuildError =
    | DatasetNotBuilding | EligibleCountMismatch | PreflightProjectionInvalid | ModelContractMismatch
    | Provider(code: string) | ResultInvalid | ChunkContractInvalid
    | MadeNoProgress | ReconciliationFailed

  class Repository {
    const building: bool
    const chunks: set<Chunk>
    const eligible: seq<Chunk>
    const id: (Model, Chunk) -> string
    const hash: string -> string
    var models: map<(string, string), Model>
    var rows: Rows

    constructor (building: bool, chunks: set<Chunk>, eligible: seq<Chunk>, id: (Model, Chunk) -> string,
                 hash: string -> string, rows: Rows)
      ensures this.building == building && this.chunks == chunks && this.eligible == eligible && this.id == id
              && this.hash == hash
      ensures this.rows == rows && models == map[]
    {
      this.building, this.chunks, this.eligible := building, chunks, eligible;
      this.id, this.hash, this.rows := id, hash, rows;
      models := map[];
    }

    method Check(m: Model) returns (p: Preflight)
      ensures p == Preflight(building, |eligible|, ExactCount(eligible, rows, m), |Missing(eligible, rows, m)|,
                             |Stale(chunks, rows, m)|, |Orphans(eligible, rows, m)|)
    {
      p := Preflight(building, |eligible|, ExactCount(eligible, rows, m), |Missing(eligible, rows, m)|,
                     |Stale(chunks, rows, m)|, |Orphans(eligible, rows, m)|);
    }

    /** Inserts the model unless one with its id and version is there, then compares. */
    method RegisterModel(m: Model) returns (ok: bool)
      modifies this`models
      ensures ok <==> (m.id, m.version) !in old(models) || old(models[(m.id, m.version)]) == m
      ensures models == if (m.id, m.version) in old(models) then old(models) else old(models)[(m.id, m.version) := m]
    {
      if (m.id, m.version) !in models {
        models := models[(m.id, m.version) := m];
      }
      ok := models[(m.id, m.version)] == m;
    }

    predicate Intact(c: Chunk) {
      |c.contentHash| == 64 && c.contentHash == hash(c.text) && !Blank(c.title) && !Blank(c.path)
    }

    /** Inserts a row for each pending chunk, skipping ids that are taken, and returns how many it inserted. */
    method AppendEmbeddings(m: Model, pending: seq<Chunk>) returns (r: Result<nat, BuildError>)
      modifies this`rows
      ensures r == if forall c | c in pending :: Intact(c) then Success(InsertedCount(old(rows), pending, m, id))
                   else Failure(ChunkContractInvalid)
      ensures rows == if r.Success? then Appended(old(rows), pending, m, id) else old(rows)
    {
      for k := 0 to |pending|
        invariant forall c | c in pending[..k] :: Intact(c)
        invariant rows == old(rows)
      {
        if !Intact(pending[k]) {
          return Failure(ChunkContractInvalid);
        }
        assert pending[..k + 1] == pending[..k] + [pending[k]];
      }
      assert pending[..|pending|] == pending;
      var inserted := 0;
      for k := 0 to |pending|
        invariant rows == Appended(old(rows), pending[..k], m, id)
        invariant inserted == InsertedCount(old(rows), pending[..k], m, id)
      {
        assert pending[..k + 1][..k] == pending[..k];
        if id(m, pending[k]) !in rows {
          rows := rows[id(m, pending[k]) := NewRow(pending[k], m)];
          inserted := inserted + 1;
        }
      }
      assert pending[..|pending|] == pending;
      r := Success(inserted);
    }

    /** The sum of the surpluses of all groups, in whatever order they come. */
    method CountDuplicates(m: Model) returns (n: nat)
      ensures n == DuplicateCount(rows, m)
    {
      var rest := Groups(rows, m);
      n := 0;
      while rest != {}
        invariant n + SumOver(Surpluses(rows, m, rest)) == DuplicateCount(rows, m)
        decreases |rest|
      {
        var g :| g in rest;
        SumInAnyOrder(Surpluses(rows, m, rest), g);
        assert Surpluses(rows, m, rest) - {g} == Surpluses(rows, m, rest - {g});
        n := n + Surplus(rows, m, g);
        rest := rest - {g};
      }
      assert Surpluses(rows, m, {}) == map[];
    }

    method Reconcile(m: Model) returns (r: Reconciliation)
      ensures r == Reconciliation(|eligible|, ExactCount(eligible, rows, m), |Missing(eligible, rows, m)|,
                                  DuplicateCount(rows, m),
                                  |Stale(chunks, rows, m)|, |Orphans(eligible, rows, m)|, |WrongDimension(rows, m)|)
    {
      var duplicates := CountDuplicates(m);
      r := Reconciliation(|eligible|, ExactCount(eligible, rows, m), |Missing(eligible, rows, m)|, duplicates,
                          |Stale(chunks, rows, m)|, |Orphans(eligible, rows, m)|, |WrongDimension(rows, m)|);
    }
  }

  // ----- the provider -----

  /** A vector of some length with its token and retry counts, or an error with its code. */
  datatype Reply = Embedded(vectorLength: int, finite: bool, tokens: int, retries: int) | Refused(code: string)

  /** A provider that answers its n-th call with reply(n). */
  class EmbeddingProvider {
    const reply: nat -> Reply
    var calls: nat

    constructor (reply: nat -> Reply)
      ensures this.reply == reply && calls == 0
    {
      this.reply, calls := reply, 0;
    }

    method Embed() returns (r: Reply)
      modifies this`calls
      ensures calls == old(calls) + 1 && r == reply(old(calls))
    {
      r := reply(calls);
      calls := calls + 1;
    }
  }

  // ----- the build -----

  const RETRY_EXHAUSTED := "retry_exhausted"
  const DELAYS := [60, 300, 1800, 3600]

  datatype Report = Report(eligible: nat, requested: nat, inserted: nat, skipped: nat, tokens: int, retries: int)

  predicate IsValid(reply: Reply, m: Model) {
    reply.Embedded? && reply.vectorLength == m.dimension && reply.finite && reply.tokens > 0 && reply.retries >= 0
  }

  /** The provider stops exhausting retries at some call. */
  ghost predicate FailsFinitely(reply: nat -> Reply, last: nat) {
    forall n | n >= last :: reply(n) != Refused(RETRY_EXHAUSTED)
  }

  // ----- rounds -----

  /** One pass of the fill loop: the provider's calls from..to, and whether their batch was appended. */
  datatype Round = Round(from: nat, to: nat, appended: bool)

  /** Every call of an appended batch was answered with a valid embedding; a batch that was not appended ended
      at the first call refused because retries were exhausted. */
  ghost predicate RoundShows(reply: nat -> Reply, m: Model, round: Round) {
    && round.from < round.to
    && (forall k: nat | round.from <= k < round.to - 1 :: reply(k).Embedded?)
    && (if round.appended then forall k: nat | round.from <= k < round.to :: IsValid(reply(k), m)
        else reply(round.to - 1) == Refused(RETRY_EXHAUSTED))
  }

  /** The rounds account for all calls from..to, in order. */
  ghost predicate Logged(reply: nat -> Reply, m: Model, rounds: seq<Round>, from: nat, to: nat) {
    && (if rounds == [] then from == to else rounds[0].from == from && rounds[|rounds| - 1].to == to)
    && (forall i, j | 0 <= i < |rounds| && j == i + 1 < |rounds| :: rounds[i].to == rounds[j].from)
    && forall i | 0 <= i < |rounds| :: RoundShows(reply, m, rounds[i])
  }

  /** The tokens reported by the calls from..to. */
  ghost function TokensOf(reply: nat -> Reply, from: nat, to: nat): int {
    if to <= from then 0
    else TokensOf(reply, from, to - 1) + if reply(to - 1).Embedded? then reply(to - 1).tokens else 0
  }

  /** The retries reported by the calls from..to. */
  ghost function RetriesOf(reply: nat -> Reply, from: nat, to: nat): int {
    if to <= from then 0
    else RetriesOf(reply, from, to - 1) + if reply(to - 1).Embedded? then reply(to - 1).retries else 0
  }

  /** The totals of the appended rounds: calls, tokens and retries. */
  ghost function Totals(reply: nat -> Reply, rounds: seq<Round>): (int, int, int) {
    if rounds == [] then (0, 0, 0)
    else
      var (calls, tokens, retries), last := Totals(reply, rounds[..|rounds| - 1]), rounds[|rounds| - 1];
      if last.appended then
        (calls + last.to - last.from, tokens + TokensOf(reply, last.from, last.to),
         retries + RetriesOf(reply, last.from, last.to))
      else (calls, tokens, retries)
  }

  /** The number of rounds that were not appended. */
  ghost function Lost(rounds: seq<Round>): nat {
    if rounds == [] then 0 else Lost(rounds[..|rounds| - 1]) + if rounds[|rounds| - 1].appended then 0 else 1
  }

  /** Just before round `i`, exactly `n` rounds in a row were lost. */
  ghost predicate LostInARow(rounds: seq<Round>, i: nat, n: nat) {
    && n <= i <= |rounds|
    && (forall k | i - n <= k < i :: !rounds[k].appended)
    && (n < i ==> rounds[i - n - 1].appended)
  }

  /** One delay for each lost round, in order: one minute, five, thirty, and then an hour as long as rounds go
      on being lost, and one minute again after a batch was appended. */
  ghost predicate DelaysFollow(rounds: seq<Round>, delays: seq<int>) {
    && |delays| == Lost(rounds)
    && forall i: nat, n: nat | i < |rounds| && !rounds[i].appended && LostInARow(rounds, i, n) ::
         IsDelay(rounds, delays, i, n)
  }

  ghost predicate IsDelay(rounds: seq<Round>, delays: seq<int>, i: nat, n: nat)
    requires i < |rounds|
  {
    && Lost(rounds[..i]) < |delays|
    && delays[Lost(rounds[..i])] == (if n == 0 then 60 else if n == 1 then 300 else if n == 2 then 1800 else 3600)
  }

  lemma {:induction false} LogStarts(reply: nat -> Reply, m: Model, at: nat)
    ensures Logged(reply, m, [], at, at) && DelaysFollow([], []) && Totals(reply, []) == (0, 0, 0)
    ensures LostInARow([], 0, 0)
  {}

  lemma {:induction false} LogGrows(reply: nat -> Reply, m: Model, rounds: seq<Round>, from: nat, round: Round)
    requires Logged(reply, m, rounds, from, round.from) && RoundShows(reply, m, round)
    ensures Logged(reply, m, rounds + [round], from, round.to)
  {
    hide RoundShows;
  }

  lemma {:induction false} TotalsGrow(reply: nat -> Reply, rounds: seq<Round>, round: Round)
    ensures var (calls, tokens, retries) := Totals(reply, rounds);
      Totals(reply, rounds + [round]) ==
        if round.appended then
          (calls + round.to - round.from, tokens + TokensOf(reply, round.from, round.to),
           retries + RetriesOf(reply, round.from, round.to))
        else (calls, tokens, retries)
  {
    var more := rounds + [round];
    assert more[..|more| - 1] == rounds;
  }

  lemma {:induction false} LostUpTo(rounds: seq<Round>, i: nat)
    requires i <= |rounds|
    ensures Lost(rounds[..i]) <= Lost(rounds)
    ensures i < |rounds| && !rounds[i].appended ==> Lost(rounds[..i]) < Lost(rounds)
    decreases |rounds|
  {
    if i < |rounds| {
      assert rounds[..|rounds| - 1][..i] == rounds[..i];
      LostUpTo(rounds[..|rounds| - 1], i);
    } else {
      assert rounds[..i] == rounds;
    }
  }

  lemma {:induction false} RowGrows(rounds: seq<Round>, n: nat, round: Round)
    requires LostInARow(rounds, |rounds|, n)
    ensures var more := rounds + [round]; LostInARow(more, |more|, if round.appended then 0 else n + 1)
  {}

  lemma {:induction false} OneRow(rounds: seq<Round>, i: nat, n: nat, k: nat)
    requires LostInARow(rounds, i, n) && LostInARow(rounds, i, k)
    ensures n == k
  {
    assert n < i ==> rounds[i - n - 1].appended;
    assert k < i ==> rounds[i - k - 1].appended;
  }

  lemma {:induction false} OlderDelays(rounds: seq<Round>, delays: seq<int>, round: Round, more: seq<int>)
    requires DelaysFollow(rounds, delays)
    ensures forall i: nat, n: nat | i < |rounds| && !rounds[i].appended && LostInARow(rounds + [round], i, n) ::
              IsDelay(rounds + [round], delays + more, i, n)
  {
    var all := rounds + [round];
    forall i: nat, n: nat | i < |rounds| && !rounds[i].appended && LostInARow(all, i, n)
      ensures IsDelay(all, delays + more, i, n)
    {
      assert all[..i] == rounds[..i];
      assert LostInARow(rounds, i, n);
      assert IsDelay(rounds, delays, i, n);
    }
  }

  lemma {:induction false} DelaysGrow(rounds: seq<Round>, delays: seq<int>, n: nat, round: Round)
    requires DelaysFollow(rounds, delays) && LostInARow(rounds, |rounds|, n)
    ensures DelaysFollow(rounds + [round],
                         delays + if round.appended then [] else [DELAYS[if n < |DELAYS| then n else |DELAYS| - 1]])
  {
    var all := rounds + [round];
    var more := if round.appended then [] else [DELAYS[if n < |DELAYS| then n else |DELAYS| - 1]];
    assert all[..|rounds|] == rounds && all[..|all| - 1] == rounds;
    OlderDelays(rounds, delays, round, more);
    forall i: nat, k: nat | i < |all| && !all[i].appended && LostInARow(all, i, k)
      ensures IsDelay(all, delays + more, i, k)
    {
      if i == |rounds| {
        assert LostInARow(rounds, i, k);
        OneRow(rounds, i, n, k);
      }
    }
  }

  class BuildService {
    const repository: Repository
    const provider: EmbeddingProvider
    const model: Model
    const batchSize: nat

    constructor (repository: Repository, provider: EmbeddingProvider, model: Model, batchSize: nat)
      requires 1 <= batchSize <= 100
      ensures this.repository == repository && this.provider == provider && this.model == model
              && this.batchSize == batchSize
    {
      this.repository, this.provider, this.model, this.batchSize := repository, provider, model, batchSize;
    }

    /** From its n-th call on the provider answers validly, unless it exhausts its retries. */
    ghost predicate Delivers(n: nat)
    {
      forall k | k >= n :: IsValid(provider.reply(k), model) || provider.reply(k) == Refused(RETRY_EXHAUSTED)
    }

    /** Embeds every chunk of a batch and appends the results; an error of the provider appends nothing. */
    method EmbedBatch(batch: seq<Chunk>) returns (r: Result<(nat, int, int), BuildError>)
      requires batch != []
      modifies repository`rows, provider`calls
      ensures old(provider.calls) < provider.calls
      ensures forall code | r == Failure(Provider(code)) ::
                provider.reply(provider.calls - 1) == Refused(code)
                && forall k: nat | old(provider.calls) <= k < provider.calls - 1 :: provider.reply(k).Embedded?
      ensures r.Success? ==>
                && provider.calls == old(provider.calls) + |batch|
                && (forall k: nat | old(provider.calls) <= k < provider.calls :: IsValid(provider.reply(k), model))
                && r.value.1 == TokensOf(provider.reply, old(provider.calls), provider.calls)
                && r.value.2 == RetriesOf(provider.reply, old(provider.calls), provider.calls)
      ensures r.Success? ==>
                && repository.rows == Appended(old(repository.rows), batch, model, repository.id)
                && r.value.0 == InsertedCount(old(repository.rows), batch, model, repository.id)
      ensures r.Failure? ==> repository.rows == old(repository.rows)
      ensures r.Failure? ==> r.error.Provider? || r.error == ResultInvalid || r.error == ChunkContractInvalid
      ensures Delivers(old(provider.calls)) && (forall c | c in batch :: repository.Intact(c)) ==>
                r.Success? || r == Failure(Provider(RETRY_EXHAUSTED))
    {
      var tokens, retries, valid := 0, 0, true;
      for k := 0 to |batch|
        invariant provider.calls == old(provider.calls) + k
        invariant repository.rows == old(repository.rows)
        invariant Delivers(old(provider.calls)) ==> valid
        invariant forall n: nat | old(provider.calls) <= n < provider.calls :: provider.reply(n).Embedded?
        invariant valid ==>
                    forall n: nat | old(provider.calls) <= n < provider.calls :: IsValid(provider.reply(n), model)
        invariant tokens == TokensOf(provider.reply, old(provider.calls), provider.calls)
        invariant retries == RetriesOf(provider.reply, old(provider.calls), provider.calls)
      {
        var reply := provider.Embed();
        if reply.Refused? {
          return Failure(Provider(reply.code));
        }
        tokens, retries := tokens + reply.tokens, retries + reply.retries;
        valid := valid && IsValid(reply, model);
      }
      if !valid {
        return Failure(ResultInvalid);
      }
      var inserted := repository.AppendEmbeddings(model, batch);
      r := if inserted.Success? then Success((inserted.value, tokens, retries)) else Failure(inserted.error);
    }

    /** The rounds account for the provider's calls from `first` on, each lost round for one delay, and the
        totals of the appended rounds are those of the report. */
    ghost predicate Accounts(rounds: seq<Round>, first: nat, r: Result<Report, BuildError>, delays: seq<int>)
      reads provider
    {
      && (exists done: nat :: done <= provider.calls && Logged(provider.reply, model, rounds, first, done))
      && DelaysFollow(rounds, delays)
      && (r.Success? ==>
            && Logged(provider.reply, model, rounds, first, provider.calls)
            && Totals(provider.reply, rounds) == (r.value.requested, r.value.tokens, r.value.retries))
    }

    /** The fill loop: it ends for every provider that exhausts its retries finitely often. */
    method Fill(ghost last: nat) returns (r: Result<Report, BuildError>, delays: seq<int>, ghost rounds: seq<Round>)
      requires Distinct(repository.eligible) && 1 <= batchSize <= 100
      requires FailsFinitely(provider.reply, last)
      modifies repository`rows, provider`calls
      ensures exists requested: nat, inserted: nat ::
                Filled(repository.eligible, old(repository.rows), repository.rows, model, repository.id, requested,
                       inserted)
      ensures r.Success? ==>
                && Filled(repository.eligible, old(repository.rows), repository.rows, model, repository.id,
                          r.value.requested, r.value.inserted)
                && Missing(repository.eligible, repository.rows, model) == []
      ensures Consistent(old(repository.rows), model, repository.id) && Injective(model, repository.id) ==>
                r != Failure(MadeNoProgress)
      ensures r != Failure(ReconciliationFailed)
      ensures (&& Consistent(old(repository.rows), model, repository.id) && Injective(model, repository.id)
               && Delivers(old(provider.calls)) && (forall c | c in repository.eligible :: repository.Intact(c))) ==>
                   r.Success?
      ensures Accounts(rounds, old(provider.calls), r, delays)
    {
      hide Distinct, Filled, Consistent, Injective, IsBatch, Missing, Batch, Logged, DelaysFollow, Totals, LostInARow,
           TokensOf, RetriesOf;
      delays, rounds := [], [];
      LogStarts(provider.reply, model, provider.calls);
      var requested: nat, inserted: nat, tokens, retries, recovery: nat := 0, 0, 0, 0, 0;
      FillStarts(repository.eligible, repository.rows, model, repository.id);
      while true
        invariant Filled(repository.eligible, old(repository.rows), repository.rows, model, repository.id, requested,
                         inserted)
        invariant Logged(provider.reply, model, rounds, old(provider.calls), provider.calls)
        invariant DelaysFollow(rounds, delays) && LostInARow(rounds, |rounds|, recovery)
        invariant Totals(provider.reply, rounds) == (requested, tokens, retries)
        invariant old(provider.calls) <= provider.calls
        decreases |Missing(repository.eligible, repository.rows, model)|,
                  if provider.calls < last then last - provider.calls else 0
      {
        var batch := Batch(repository.eligible, repository.rows, model, batchSize);
        BatchIsBatch(repository.eligible, repository.rows, model, batchSize);
        if batch == [] {
          break;
        }
        assert forall c | c in batch :: c in repository.eligible by {
          BatchIsEligible(repository.eligible, repository.rows, model, batch);
        }
        FillStep(repository.eligible, old(repository.rows), repository.rows, batch, model, repository.id, requested,
                 inserted);
        ghost var from := provider.calls;
        var result := EmbedBatch(batch);
        if result.Failure? {
          if result.error != Provider(RETRY_EXHAUSTED) {
            return Failure(result.error), delays, rounds;
          }
          rounds := AddRound(rounds, old(provider.calls), delays, recovery, Round(from, provider.calls, false));
          delays := delays + [DELAYS[if recovery < |DELAYS| then recovery else |DELAYS| - 1]];
          recovery := recovery + 1;
          continue;
        }
        if result.value.0 == 0 {
          return Failure(MadeNoProgress), delays, rounds;
        }
        rounds := AddRound(rounds, old(provider.calls), delays, recovery, Round(from, provider.calls, true));
        assert delays + [] == delays;
        recovery := 0;
        requested := requested + |batch|;
        inserted := inserted + result.value.0;
        tokens, retries := tokens + result.value.1, retries + result.value.2;
      }
      r := Success(Report(0, requested, inserted, 0, tokens, retries));
    }

    ghost method AddRound(rounds: seq<Round>, first: nat, delays: seq<int>, recovery: nat, round: Round)
      returns (more: seq<Round>)
      requires Logged(provider.reply, model, rounds, first, round.from) && RoundShows(provider.reply, model, round)
      requires DelaysFollow(rounds, delays) && LostInARow(rounds, |rounds|, recovery)
      ensures more == rounds + [round] && Logged(provider.reply, model, more, first, round.to)
      ensures var (calls, tokens, retries) := Totals(provider.reply, rounds);
        Totals(provider.reply, more) ==
          if round.appended then
            (calls + round.to - round.from, tokens + TokensOf(provider.reply, round.from, round.to),
             retries + RetriesOf(provider.reply, round.from, round.to))
          else (calls, tokens, retries)
      ensures LostInARow(more, |more|, if round.appended then 0 else recovery + 1)
      ensures DelaysFollow(more, delays + if round.appended then []
                                          else [DELAYS[if recovery < |DELAYS| then recovery else |DELAYS| - 1]])
    {
      hide Logged, DelaysFollow, Totals, LostInARow, RoundShows, TokensOf, RetriesOf;
      more := rounds + [round];
      LogGrows(provider.reply, model, rounds, first, round);
      TotalsGrow(provider.reply, rounds, round);
      RowGrows(rounds, recovery, round);
      DelaysGrow(rounds, delays, recovery, round);
    }

    /** All that the build asks for before it starts, of its tables, its chunks and its provider. */
    ghost predicate Prepared(expected: nat)
      reads repository, provider
    {
      && repository.building && |repository.eligible| == expected
      && IsTable(repository.chunks)
         && (forall c | c in repository.eligible :: c in repository.chunks && repository.Intact(c))
      && Stale(repository.chunks, repository.rows, model) == {}
         && Orphans(repository.eligible, repository.rows, model) == {}
      && ((model.id, model.version) in repository.models ==> repository.models[(model.id, model.version)] == model)
      && Consistent(repository.rows, model, repository.id) && Injective(model, repository.id)
      && Delivers(provider.calls)
    }

    /** On success the rows of the model and the eligible chunks correspond one to one, and exactly the
        chunks that were missing have been inserted. Rows are only ever added, and on a consistent table
        with injective ids the build does not stall. A prepared build succeeds exactly when the table has
        neither duplicates nor wrong dimensions to begin with. */
    method EmbedAll(expected: nat, ghost last: nat)
      returns (r: Result<Report, BuildError>, delays: seq<int>, ghost rounds: seq<Round>)
      requires Distinct(repository.eligible) && 1 <= batchSize <= 100
      requires FailsFinitely(provider.reply, last)
      modifies repository`models, repository`rows, provider`calls
      ensures forall i | i in old(repository.rows) ::
                i in repository.rows && repository.rows[i] == old(repository.rows)[i]
      ensures r.Success? ==>
                && InBijection(repository.eligible, repository.rows, model)
                && r.value.eligible == |repository.eligible| == expected
                && r.value.inserted == |Missing(repository.eligible, old(repository.rows), model)|
                && |repository.rows| == |old(repository.rows)| + r.value.inserted
                && r.value.inserted <= r.value.requested
                && r.value.skipped + r.value.inserted == r.value.eligible
      ensures Consistent(old(repository.rows), model, repository.id) && Injective(model, repository.id) ==>
                r != Failure(MadeNoProgress)
      ensures old(Prepared(expected)) ==>
                if old(DuplicateCount(repository.rows, model)) == 0 && old(WrongDimension(repository.rows, model)) == {}
                then r.Success? else r == Failure(ReconciliationFailed)
      ensures Accounts(rounds, old(provider.calls), r, delays)
    {
      hide Logged, DelaysFollow, Totals;
      hide InBijection, Distinct, Consistent, Injective, Missing, ExactCount, Stale, Orphans, WrongDimension, Matches;
      delays, rounds := [], [];
      LogStarts(provider.reply, model, provider.calls);
      var check := repository.Check(model);
      if !check.building {
        return Failure(DatasetNotBuilding), delays, rounds;
      }
      if check.eligible != expected {
        return Failure(EligibleCountMismatch), delays, rounds;
      }
      if check.stale != 0 || check.orphan != 0 {
        return Failure(PreflightProjectionInvalid), delays, rounds;
      }
      var ok := repository.RegisterModel(model);
      if !ok {
        return Failure(ModelContractMismatch), delays, rounds;
      }
      r, delays, rounds := Fill(last);
      if r.Failure? {
        return;
      }
      if old(Prepared(expected)) {
        CleanBeforeIsCleanAfter(repository.eligible, repository.chunks, old(repository.rows), repository.rows, model);
      }
      var counts := repository.Reconcile(model);
      if counts.eligible != expected || counts.exact != expected || counts.missing != 0 || counts.duplicate != 0
         || counts.stale != 0 || counts.orphan != 0 || counts.wrongDimension != 0 {
        return Failure(ReconciliationFailed), delays, rounds;
      }
      CleanCountsMeanBijection(repository.eligible, repository.rows, model);
      AtMostOneBefore(repository.eligible, old(repository.rows), repository.rows, model);
      ExactAndMissing(repository.eligible, old(repository.rows), model);
      r := Success(r.value.(eligible := check.eligible, skipped := check.exact));
    }
  }

  /** How far a fill has come: rows were only added, and each inserted row took one chunk off the list. */
  ghost predicate Filled(eligible: seq<Chunk>, before: Rows, now: Rows, m: Model, id: (Model, Chunk) -> string,
                         requested: nat, inserted: nat) {
    && |Missing(eligible, now, m)| + inserted == |Missing(eligible, before, m)|
    && |now| == |before| + inserted && inserted <= requested
    && (forall i | i in before :: i in now && now[i] == before[i])
    && OnlyFills(eligible, before, now, m)
    && (Consistent(before, m, id) && Injective(m, id) ==> requested == inserted && Consistent(now, m, id))
  }

  lemma {:induction false} FillStarts(eligible: seq<Chunk>, rows: Rows, m: Model, id: (Model, Chunk) -> string)
    ensures Filled(eligible, rows, rows, m, id, 0, 0)
  {}

  lemma {:induction false} FillStep(eligible: seq<Chunk>, before: Rows, now: Rows, batch: seq<Chunk>, m: Model,
                                    id: (Model, Chunk) -> string, requested: nat, inserted: nat)
    requires Distinct(eligible) && IsBatch(eligible, now, m, batch) && batch != []
    requires Filled(eligible, before, now, m, id, requested, inserted)
    ensures Filled(eligible, before, Appended(now, batch, m, id), m, id, requested + |batch|,
                   inserted + InsertedCount(now, batch, m, id))
    ensures |Missing(eligible, Appended(now, batch, m, id), m)| ==
              |Missing(eligible, now, m)| - InsertedCount(now, batch, m, id)
    ensures Consistent(before, m, id) && Injective(m, id) ==> InsertedCount(now, batch, m, id) > 0
  {
    hide Distinct, IsBatch, Consistent, Injective, Matches, OnlyFills;
    AppendLowersMissing(eligible, now, batch, m, id);
    AppendKeepsRows(now, batch, m, id);
    InsertedFits(now, batch, m, id);
    AppendOnlyFills(eligible, before, now, batch, m, id);
    if Consistent(before, m, id) && Injective(m, id) {
      ConsistentNeverStalls(eligible, now, batch, m, id);
    }
    hide Missing;
  }

  lemma {:induction false} InsertedFits(rows: Rows, pending: seq<Chunk>, m: Model, id: (Model, Chunk) -> string)
    ensures InsertedCount(rows, pending, m, id) <= |pending|
  {
    if pending != [] {
      InsertedFits(rows, pending[..|pending| - 1], m, id);
    }
  }
}
