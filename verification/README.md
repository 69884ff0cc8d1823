# Verified model of the financial agent's core

This project models the hardest logic of the financial agent in Dafny and proves what that logic is for. Each
module stands for one component. Code that works by changing things step by step is a method, or a class whose
methods change its fields, proved equal to a specification function; the results about whole runs are lemmas about
those functions and about every sequence of steps.

| module | component |
|---|---|
| `Text`, `Segmentation`, `Windows`, `Chunking`, `ChunkOrigins` | the path of a section's text to ranges, units, groups, overlapping windows and deduplicated chunks |
| `Extraction`, `RiskTables` | canonical text with line spans, the section machine, the split of risk tables, and locators through to chunks |
| `Graphs`, `Kahn` | walks, cycles and orders; the queue-based acyclicity check |
| `Execution` | execution graphs, the ancestor worklist, schedules, tool results and the store of binding values |
| `EvidenceLedger` | calculation dependencies inserted by concurrent transactions and checked edge by edge at commit |
| `DatasetStatus`, `FrozenContent` | shared and exclusive row locks, and content that freezes when a dataset leaves building |
| `DatasetLifecycle` | validation, readiness, activation and retirement, and the preflight query |
| `ConcurrentLifecycle` | the same functions, and the start of a request run, in concurrent transactions under their row locks and advisory locks |
| `Flattening`, `Collation`, `Hashes`, `RequestLedger`, `RequestDatabase`, `ArtifactProperties`, `OutcomeProperties`, `LedgerCalls`, `LedgerExamples` | request runs, append-only artifacts with numbered references, write-once outcomes, the release cache, and runs that show what the functions let through |
| `CanonicalDecimals` | the decimal printer, its grammar and its parser |
| `EmbeddingBuild`, `PacedClient` | the resumable embedding build and the paced, retrying client |
| `DocumentPolicy` | document admission and selection, and the source audit gate |
| `ChallengerAccounting` | call records, counters, the accounting validator and percentiles |
| `Sequences`, `Sorting`, `Wrappers` | shared definitions |

## How to read the model

- Automatic induction is switched off in every lemma: an induction is a lemma that calls itself.
- Texts are sequences of characters; whitespace and line breaks are the character classes of Python.
  Slicing clamps as Python's does. A counter is any function; results say which of two demands they need of it
  (never more in a part than in the whole, nothing for blank text), and the whitespace counter meets both.
- A content hash is any function of the text. Results that need it to be injective say so.
- Databases are states with steps. Every interleaving is a sequence of steps; a step that must wait for a lock changes
  no data; an error ends its transaction. Statements run at READ COMMITTED, so a status read under a lock is the latest
  committed one, or the transaction's own. A transaction may run its deferred checks early.
- In `ConcurrentLifecycle` a call takes its locks one by one, in the order of its statements, and may wait at each; what
  it then reads and writes, under all of them, happens at once.
- An execution graph's runtime fields, an evidence row's dataset and a request's scope are compared as records.
- Nulls are `None`. Two comparisons with null are kept as the code has them: `NOT IN` and `<>` do not find a null to
  differ. The results say exactly what follows: a run that ended with status 200 may carry a null outcome, and replaying
  that call conflicts; a cached release may rest on a report without a status. `LedgerExamples` has a run for each.
- Times are integers in `RequestLedger` and `DocumentPolicy` and reals in `PacedClient`. Seoul is nine hours ahead of UTC.

## Where the code differs from what one might expect

- The acyclicity check tells edges apart by the text `left->right`. For identifiers that is exact; for other names two
  edges can collide, and `Kahn.CollidingLabels` shows an acyclic graph that is refused.
- References in the role `checked` keep the positions of calculation targets among all checks, so their ordinals have
  gaps unless those targets come first, as in `LedgerExamples.CheckedStartsAtOne`; every other role is numbered
  without gaps.
- A lookup after an append conflict does not use the object id of an intent resolution. The result is the same conflict.
- Pacing separates the instants that the client records, not the instants at which the transport sends.
- When several sections are malformed, which error is reported depends on the order of the sections; the outcome does not.

## Model

| member | source | states |
|---|---|---|
| `Text.WordCountIsACounter` | src/financial_agent/documents/chunking.py:20-24 | The whitespace counter never counts more in a part of a text than in the whole, and counts blank text as nothing: the two demands the segmentation results make of a counter |
| `Segmentation.ScanStarts` | src/financial_agent/documents/chunking.py:386-398 | The one-pass scan finds the text's start and exactly the positions that open a range, in order |
| `Segmentation.ScanSemanticRanges` | src/financial_agent/documents/chunking.py:386-399 | The scan yields exactly the ranges of the text, from one opening to the next, that hold text, in order |
| `Segmentation.LineEndIsExact` | src/financial_agent/documents/chunking.py:390-397 | A line ends where the next line begins or with the text; a line begins after a line break, a carriage return with its line feed counting as one |
| `Segmentation.StartsAreExact` | src/financial_agent/documents/chunking.py:386-398 | A position opens a range exactly when it begins a line that holds text and either the line before it is blank or the line is a bullet |
| `Segmentation.RangesAreExact` | src/financial_agent/documents/chunking.py:386-399 | A range is kept exactly when it reaches from the text's start or an opening to the next opening or the end, holds text, has no opening inside and is flagged as it reads; kept ranges come in order |
| `Segmentation.SemanticRangesCoverText` | src/financial_agent/documents/chunking.py:386-399 | For every text the kept ranges are adjacent, hold text, begin the text or follow a line break, end with the text, and leave out only a blank prefix |
| `Segmentation.SplitAtWhitespace` | src/financial_agent/documents/chunking.py:419-438 | The greedy loop over words yields exactly the recursive cut, oversized words flagged indivisible |
| `Segmentation.WordUnitsTile` | src/financial_agent/documents/chunking.py:419-438 | Cutting at whitespace covers its stretch exactly, without gap or overlap, whatever the counter |
| `Segmentation.WordUnitsFit` | src/financial_agent/documents/chunking.py:419-438 | For a counter that ignores blanks every unit cut at whitespace and not flagged is within the target |
| `Segmentation.SplitSentences` | src/financial_agent/documents/chunking.py:407-416 | The loop over sentence breaks yields the recursive split of the range |
| `Segmentation.SplitSemanticUnit` | src/financial_agent/documents/chunking.py:402-416 | A range within the target stays whole, a long bullet is one indivisible unit, anything else is split by sentences |
| `Segmentation.RangeSplitsExactly` | src/financial_agent/documents/chunking.py:386-438 | The units of every kept range tile it exactly and in order, whatever the counter; unless flagged indivisible they are within the target for a counter that ignores blanks |
| `Segmentation.SplitIsExact` | src/financial_agent/documents/chunking.py:402-438 | The units of a kept range are the only ones that meet the rule: the whole if it fits, one flagged unit if it is a bullet, else sentence by sentence, a sentence that does not fit being cut at words as late as the target allows, with a word that does not fit flagged |
| `Windows.GroupUnits` | src/financial_agent/documents/chunking.py:441-452 | The grouping loop is the greedy definition |
| `Windows.GreedyIsTight` | src/financial_agent/documents/chunking.py:441-452 | Greedy groups flatten to the input, each is within the target or a single unit, and the first unit of a group never fits the group before it |
| `Windows.UnitGroups.RebalanceTerminalGroup` | src/financial_agent/documents/chunking.py:457-467 | Popping from one list and inserting at the front of the next moves units while the terminal group is below the minimum and the single move allows it, and no longer; no other group changes |
| `Windows.BalancingIsExact` | src/financial_agent/documents/chunking.py:457-467 | Balancing gives exactly the cut that single moves lead to: before each the terminal group was below the minimum, and each kept the terminal group within the maximum and the prior group at the minimum; at the end no move is allowed or needed |
| `Windows.RebalancedIsGood` | src/financial_agent/documents/chunking.py:457-467 | Balancing the tail loses no unit and keeps every group within the target or a single unit, and neighbours still do not fit together |
| `Windows.BaseGroupsKeepUnits` | src/financial_agent/documents/chunking.py:441-467 | Whatever the counter, the groups before overlap flatten to the input units in order |
| `Windows.BaseGroupsAreGood` | src/financial_agent/documents/chunking.py:441-467 | For a monotone counter the groups before overlap are within the target or single units and no two neighbours fit together |
| `Windows.GreedyIsUnique` | src/financial_agent/documents/chunking.py:441-452 | The units and the target leave only one greedy grouping |
| `Windows.BaseGroupsAreExact` | src/financial_agent/documents/chunking.py:441-467 | The groups before overlap are the balanced form of the greedy grouping and nothing else is, whatever the counter |
| `Windows.OverlapTail` | src/financial_agent/documents/chunking.py:473-483 | Growing the tail backwards and popping it from the front yields the defined overlap |
| `Windows.OverlapIsLongest` | src/financial_agent/documents/chunking.py:473-483 | The overlap is a strict suffix of the previous group, within the overlap limit and fitting with the group, and no longer suffix is both |
| `Windows.OverlapIsExact` | src/financial_agent/documents/chunking.py:473-483 | The overlap is the one that the growing and the trimming rule leave, whatever the counter |
| `Windows.ApplyOverlap` | src/financial_agent/documents/chunking.py:470-485 | The loop over groups builds the defined windows |
| `Windows.BoundUnits` | src/financial_agent/documents/chunking.py:441-454 | Grouping, balancing in place and overlapping together give the defined windows |
| `Windows.BoundUnitsIsExact` | src/financial_agent/documents/chunking.py:441-485 | Windows are what greedy grouping, balancing by single moves and the overlap rule leave, and nothing else is, whatever the counter |
| `Windows.WindowReach` | src/financial_agent/documents/chunking.py:470-485 | Whatever the counter, a window begins no later than its group and ends with it |
| `Windows.OverlapWindows` | src/financial_agent/documents/chunking.py:441-485 | For every contiguous unit list and monotone counter: the groups behind the windows flatten to the input, every window is within the target or one lone unit, each overlap is the longest admissible strict suffix of the previous group, also after balancing, and window starts and ends strictly increase |
| `Chunking.SectionUnitGroups` | src/financial_agent/documents/chunking.py:364-377 | The loop over paragraphs cuts groups exactly at repeated paragraphs and grows the shared set of hashes |
| `Chunking.SectionCandidates` | src/financial_agent/documents/chunking.py:364-383 | The candidates of a section are the windows of its groups, flagged when they hold an oversized indivisible unit |
| `Chunking.RemoveDuplicates` | src/financial_agent/documents/chunking.py:183-196 | The loop keeps the first window of each content hash, counts kept windows per sort key, and remembers whether one was flagged |
| `Chunking.WindowIsProper` | src/financial_agent/documents/chunking.py:379-383 | A candidate window lies inside its section and, unless flagged, is within the target |
| `Chunking.SectionSpansCover` | src/financial_agent/documents/chunking.py:364-383 | Every character of a first-seen paragraph lies in some candidate window of its section |
| `Chunking.KeptSpansAreProper` | src/financial_agent/documents/chunking.py:187-196 | Kept windows are proper, have pairwise different content hashes, and every candidate hash is among theirs |
| `Chunking.ChunksAreNumberedAndDistinct` | src/financial_agent/documents/chunking.py:183-196 | Ordinals are 1 to n, chunk texts are pairwise distinct, and each is its section's text at the chunk's own offsets |
| `Chunking.ParagraphsReachChunks` | src/financial_agent/documents/chunking.py:172-196 | With an injective hash every character of every first-seen paragraph of an approved section lies in a candidate window whose text is some emitted chunk's text |
| `Chunking.IndexedMeansWithinLimits` | src/financial_agent/documents/chunking.py:198-239 | An INDEXED verdict means at least one chunk, both soft limits and the token limit kept, and every chunk within the target |
| `ChunkOrigins.FirstSeenExactly` | src/financial_agent/documents/chunking.py:174-181 | A paragraph of an approved section is taken for new exactly when no paragraph of an earlier approved section, nor an earlier one of its own, has its hash |
| `ChunkOrigins.GroupsAreExact` | src/financial_agent/documents/chunking.py:364-377 | The unit groups of a section are those of the maximal runs of new paragraphs: a repeated paragraph is in none and ends the run before it |
| `ChunkOrigins.FlaggedExactly` | src/financial_agent/documents/chunking.py:379-383 | A candidate reaches from the first to the last unit of its window, and is flagged exactly when the window holds an indivisible unit over the target |
| `ChunkOrigins.KeptIsExact` | src/financial_agent/documents/chunking.py:183-196 | The kept candidates are, in order, exactly those whose content hash no earlier candidate has |
| `ChunkOrigins.VerdictIsExact` | src/financial_agent/documents/chunking.py:198-239 | A document is INDEXED exactly when it has chunks, none flagged, no more than the limit in all and per sort key, and a running total of tokens within the limit; otherwise the first of these that fails is reported |
| `ChunkOrigins.AcceptedExactly` | src/financial_agent/documents/chunking.py:310-331 | A call is refused exactly when a budget is out of range, the scope is blank, or some section's locators are incomplete, disordered or not of its text's length |
| `Chunking.SectionOrderDoesNotMatter` | src/financial_agent/documents/chunking.py:177-239 | Sections with distinct sort keys may come in any order: same outcome, or an error both times |
| `Chunking.Conclude` | src/financial_agent/documents/chunking.py:198-239 | The cascade of returns reaches the defined verdict |
| `Chunking.ChunkDocumentSections` | src/financial_agent/documents/chunking.py:150-239 | The whole entry point equals the specification, refused budgets and malformed sections included |
| `Extraction.CanonicalText` | src/financial_agent/documents/pdf_extraction.py:299-318 | The pages are joined by page breaks, and every item becomes a span located in the text, in order, on its own page |
| `Extraction.CloseSection` | src/financial_agent/documents/pdf_extraction.py:565-591 | Trimming backwards and scanning for the last page gives the defined closing |
| `Extraction.ExtractSections` | src/financial_agent/documents/pdf_extraction.py:342-393 | The one-pass machine with its running variables extracts exactly the sections of the claim headings |
| `Extraction.SectionsAreExact` | src/financial_agent/documents/pdf_extraction.py:342-393 | A section is extracted exactly when it is that of a claim heading outside the contents pages: path the root in force and the heading, text from the next content to the next ending span, trimmed, first page the heading's, last page that of the last overlapping span |
| `Extraction.ClaimsAreExtracted` | src/financial_agent/documents/pdf_extraction.py:342-393 | Every claim heading outside the contents pages reaches up to one span, and has a section exactly when that stretch holds more than trimmed characters |
| `Extraction.OneSectionPerClaim` | src/financial_agent/documents/pdf_extraction.py:342-393 | No claim heading has two sections |
| `Extraction.SectionsAreSlices` | src/financial_agent/documents/pdf_extraction.py:342-393 | For every layout and vocabulary: sections are nonempty canonical slices, ordered and disjoint, on ordered pages, and contain no claim, summary, part or boundary heading of a non-contents page |
| `Extraction.SplitPage` | src/financial_agent/documents/pdf_extraction.py:472-530 | Reading a page's rows yields the defined risk sections, or the missing-span error |
| `Extraction.SplitRiskTableSections` | src/financial_agent/documents/pdf_extraction.py:451-547 | The loops over pages and rows yield the defined split |
| `RiskTables.RiskRowsAreExact` | src/financial_agent/documents/pdf_extraction.py:472-530 | A page fails exactly when a row names a risk whose cells have no spans; otherwise its sections are, in row order, those of the rows that name a risk while collection is on |
| `RiskTables.SplitIsExact` | src/financial_agent/documents/pdf_extraction.py:451-547 | What the split leaves is exactly the sections that are not replaced and the sections that rows yield, and it fails exactly when some page does |
| `Extraction.SplitSectionsAreSlices` | src/financial_agent/documents/pdf_extraction.py:451-547 | With the risk tables split, every section is still the canonical slice at its offsets, in order of start |
| `Extraction.SlicesPassValidation` | src/financial_agent/documents/chunking.py:323-331 | Sections that are canonical slices always pass the chunker's validation |
| `Extraction.ChunksAreCanonicalSlices` | src/financial_agent/documents/chunking.py:492-500 | From extraction through chunking, every chunk's exact text is the canonical slice at its own offsets |
| `Kahn.RequireUniqueIds` | src/financial_agent/contracts/validation.py:5-8 | Comparing the length with the size of the set decides whether ids repeat |
| `Kahn.BuildTables` | src/financial_agent/contracts/validation.py:33-40 | The loop over edges fills adjacency and indegrees, or stops at the first unknown or self edge |
| `Kahn.Drain` | src/financial_agent/contracts/validation.py:42-50 | The queue loop counts every node exactly when the graph has no cycle, and then the order in which it took them is topological |
| `Kahn.RequireAcyclicEdges` | src/financial_agent/contracts/validation.py:22-53 | Accepts exactly the graphs with distinct edge labels, known ends, no self edge and no cycle, names the first error otherwise, and an accepted graph has a topological order of all nodes |
| `Kahn.AcceptedExactlyWhenAcyclic` | src/financial_agent/contracts/validation.py:22-53 | Known edges without a self edge are accepted exactly when their labels are distinct and they form no cycle; between identifiers, exactly when the edges are distinct and form no cycle |
| `Kahn.CollidingLabels` | src/financial_agent/contracts/validation.py:28-31 | Outside identifiers two different edges can share a label: an acyclic graph that is refused |
| `Graphs.EveryPredecessorMeansCycle` | src/financial_agent/contracts/validation.py:52-53 | A nonempty finite set in which every node has a predecessor contains a cycle, so a count that falls short is a real cycle |
| `Graphs.OrderedHasNoCycle` | src/financial_agent/contracts/validation.py:42-53 | A graph with a topological order has no cycle |
| `Graphs.AcyclicHasOrder` | src/financial_agent/contracts/validation.py:42-53 | A finite graph without a cycle has a topological order |
| `Execution.DependencyAncestors` | src/financial_agent/contracts/execution.py:104-113 | The worklist ends on every graph, cyclic ones included, and returns exactly the tasks from which the given one can be reached |
| `Execution.CheckTasks` | src/financial_agent/contracts/execution.py:59-76 | The loop finds the first problem with a task's own lists |
| `Execution.BuildProducers` | src/financial_agent/contracts/execution.py:92-96 | The nested loops map every produced binding, and nothing else, to a task that produces it |
| `Execution.CheckConsumers` | src/financial_agent/contracts/execution.py:115-122 | The loop accepts exactly when every consumer can be reached from the producer of each of its inputs |
| `Execution.CheckCriticalPath` | src/financial_agent/contracts/execution.py:124-143 | The critical path is distinct, known, connected by direct dependencies, and within the budgets |
| `Execution.ValidateGraph` | src/financial_agent/contracts/execution.py:43-144 | Refuses a graph for the first problem that the declarative verdict finds, and only then |
| `Execution.AcceptanceIsExact` | src/financial_agent/contracts/execution.py:43-144 | A graph is accepted exactly when ids and names are distinct, edges are labelled apart, known and acyclic, task lists are distinct, declared and disjoint, every binding is produced once in its subtask upstream of its consumers, and the path is known, connected and within the budgets |
| `Execution.PathBudgetIsExact` | src/financial_agent/contracts/execution.py:124-143 | The cost of the critical path is what the running total of its tasks' budgets ends with |
| `Execution.OneProducer` | src/financial_agent/contracts/execution.py:78-83 | When no binding is produced twice, its producer is one task |
| `Execution.ProducersRunFirst` | src/financial_agent/contracts/execution.py:43-144 | In every order that respects direct dependencies of an accepted graph, each input's unique producer, in the declared subtask, runs before its consumer |
| `Execution.ScheduleExists` | src/financial_agent/contracts/execution.py:43-144 | An accepted graph has an order of all its tasks, each once, that respects dependencies |
| `Execution.ValidateToolResult` | src/financial_agent/contracts/compatibility.py:42-76 | The checks accept exactly the compatible results and name the first incompatibility otherwise |
| `Execution.CompatibleExactly` | src/financial_agent/contracts/compatibility.py:42-76 | A result is compatible exactly when it shares the identifying fields, is of a task of the graph with its output type, and each value is an output of the task and of the declared type and cardinality |
| `Execution.StoreHoldsDeclared` | src/financial_agent/contracts/compatibility.py:57-76 | Whatever results arrive in whatever order, stored values have the declared type and cardinality and come from the binding's one producer |
| `Execution.InputsAreReady` | src/financial_agent/contracts/compatibility.py:42-76 | When tasks run in a respectful order and each delivers, every task finds each of its inputs stored, well typed, by the right producer |
| `EvidenceLedger.DependencyPath` | alembic/versions/0004_evidence_ledger.py:578-589 | The deduplicating recursive query ends on every graph and holds exactly the start and what the start depends on |
| `EvidenceLedger.CheckDecides` | alembic/versions/0004_evidence_ledger.py:571-602 | If the unchecked rows are the only ones that may lie on a cycle, checking just them decides whether the table is acyclic |
| `EvidenceLedger.CheckIsExact` | alembic/versions/0004_evidence_ledger.py:571-602 | The check at commit fails exactly when the transaction would publish a cycle |
| `EvidenceLedger.NextKeepsSound` | alembic/versions/0004_evidence_ledger.py:553-602 | Every step of every transaction keeps: committed rows acyclic, inserters hold their run's lock, checked rows add no cycle |
| `EvidenceLedger.CommittedAlwaysAcyclic` | alembic/versions/0004_evidence_ledger.py:553-602 | Over every interleaving of transactions the committed dependencies of every run stay acyclic |
| `EvidenceLedger.InsertIsExact` | alembic/versions/0004_evidence_ledger.py:553-569 | An insert waits exactly while another transaction holds its run; otherwise a row that fits the constraints joins what its transaction sees, and any other ends the transaction |
| `EvidenceLedger.CommitIsExact` | alembic/versions/0004_evidence_ledger.py:571-602 | A commit publishes all that its transaction inserted exactly when every run then stays acyclic, and nothing otherwise |
| `EvidenceLedger.CommittedKeysHold` | alembic/versions/0004_evidence_ledger.py:247-261 | Over every interleaving the committed dependencies keep the primary key and the unique constraint |
| `EvidenceLedger.BatchCheckAccepts` | src/financial_agent/contracts/validation.py:22-53 | The batch check accepts the committed dependencies of every run, however they are listed, exactly when no two labels of the list collide; between identifiers, exactly when no edge is listed twice |
| `EvidenceLedger.Ledger.InsertDependency` | alembic/versions/0004_evidence_ledger.py:553-569 | The insert trigger takes the run row's lock or waits, then the table constraints decide; the new state is the specified one |
| `EvidenceLedger.Ledger.RejectCycles` | alembic/versions/0004_evidence_ledger.py:571-602 | The deferred trigger, once per new row, decides the check |
| `EvidenceLedger.Ledger.CommitTransaction` | alembic/versions/0004_evidence_ledger.py:727-735 | Commit publishes the rows if the check passes and discards them otherwise, releasing locks |
| `FrozenContent.NextKeepsSound` | alembic/versions/0001_database_foundation.py:412-447 | Every step keeps: exclusive holders exclude other sharers, writers share the lock of a dataset still building, moved statuses are exclusively locked |
| `FrozenContent.WritersCommitWhileBuilding` | alembic/versions/0001_database_foundation.py:412-447 | In every interleaving what a transaction is about to commit belongs to a dataset still committed as building, or one that it creates itself |
| `FrozenContent.FinishedContentIsFrozen` | alembic/versions/0003_fact_document_search_schemas.py:246-282 | Once a dataset has left building, no continuation of any interleaving brings it back or inserts, updates or deletes one of its guarded rows |
| `FrozenContent.LockedStaysBuilding` | alembic/versions/0009_lock_building_dataset.py:22-50 | While a transaction shares a dataset's row lock, nothing that others do changes its committed status |
| `FrozenContent.OnlyCommitPublishes` | alembic/versions/0001_database_foundation.py:412-501 | No step but a commit changes what is committed |
| `FrozenContent.InsertIsExact` | alembic/versions/0001_database_foundation.py:412-447 | A row is inserted only under the shared lock of a dataset that the transaction sees as building; a writer waits for an exclusive holder and ends on another status |
| `FrozenContent.UpdateIsExact` | alembic/versions/0001_database_foundation.py:412-447 | A visible row is updated under the same rules; its dataset cannot change, and an append-only row cannot at all |
| `FrozenContent.DeleteIsExact` | alembic/versions/0001_database_foundation.py:412-447 | A deletion follows the same rules |
| `FrozenContent.FinishIsExact` | alembic/versions/0001_database_foundation.py:474-497 | Finishing needs the dataset's row alone and then shows its transaction a building dataset as validated if it passed and failed otherwise, ending on any other status |
| `FrozenContent.CreateIsExact` | alembic/versions/0001_database_foundation.py:38-86 | A dataset is created as building unless it is there or about to be |
| `FrozenContent.CommitIsExact` | alembic/versions/0001_database_foundation.py:412-501 | A commit makes what its transaction sees, statuses and rows, what is committed, and gives up its locks |
| `FrozenContent.Database.Guard` | alembic/versions/0001_database_foundation.py:412-447 | The row trigger waits for an exclusive holder, refuses a dataset that is not building, and otherwise holds the shared lock |
| `FrozenContent.Database.LockBuildingDataset` | alembic/versions/0009_lock_building_dataset.py:22-50 | Returns true only while holding the shared lock on a dataset seen as building |
| `FrozenContent.Database.FinishDatasetValidation` | alembic/versions/0001_database_foundation.py:448-501 | Needs the lock alone, insists on building, and moves the status to validated or failed |
| `FrozenContent.Database.CommitTransaction` | alembic/versions/0001_database_foundation.py:412-501 | A commit publishes the transaction's rows and statuses and releases its locks |
| `DatasetLifecycle.Catalog.FinishDatasetValidation` | alembic/versions/0001_database_foundation.py:450-501 | Finishing a validation run does what the specification says, errors in the same order |
| `DatasetLifecycle.FinishIsExact` | alembic/versions/0001_database_foundation.py:450-501 | Finishing succeeds exactly for a known run of a building dataset with the same manifest; the dataset is then validated if the run passed and failed otherwise, and nothing else changes |
| `DatasetLifecycle.StatusesHaveValidations` | alembic/versions/0001_database_foundation.py:450-501 | In every reachable state a validated, active or retired dataset has a passing validation under its own manifest, and a failed one a failing validation |
| `DatasetLifecycle.CreateIsExact` | alembic/versions/0001_database_foundation.py:38-86 | A dataset is created under a new version only, as building, and nothing else changes |
| `DatasetLifecycle.ValidationIsExact` | alembic/versions/0001_database_foundation.py:96-144 | A validation run is recorded under a new id only, while its dataset is building and under its manifest |
| `DatasetLifecycle.ReadinessIsExact` | alembic/versions/0001_database_foundation.py:502-572 | A component is recorded as ready once, on a passing validation of a building or validated dataset under its manifest |
| `DatasetLifecycle.ErrorsExplain` | alembic/versions/0001_database_foundation.py:450-646 | Every error is true of the call that it ends |
| `DatasetLifecycle.Catalog.RecordDatasetReadiness` | alembic/versions/0001_database_foundation.py:502-572 | Recording readiness does what the specification says, table constraints included |
| `DatasetLifecycle.Catalog.ActivateDataset` | alembic/versions/0006_rebaseline_dataset_cutoff.py:19-95 | Retire, activate and renaming of the singleton row happen together or not at all |
| `DatasetLifecycle.ActivationIsExact` | alembic/versions/0006_rebaseline_dataset_cutoff.py:19-95 | In a reachable state activation succeeds exactly for a validated dataset of the current cutoff with all four components ready; it retires the one active before and changes nothing else; neither the transition trigger nor the one-active index can object |
| `DatasetLifecycle.AlwaysSound` | alembic/versions/0006_rebaseline_dataset_cutoff.py:19-95 | From a fresh database every reachable state keeps readiness rows backed by passing validations under the own manifest, and active datasets named, current and complete |
| `DatasetLifecycle.ActiveIsTheSingleton` | alembic/versions/0006_rebaseline_dataset_cutoff.py:19-95 | In every reachable state a dataset is active exactly when the singleton row names it, and then has the current cutoff and four readiness rows from passing validations under its own manifest hash |
| `DatasetLifecycle.PreflightAlwaysConsistent` | src/financial_agent/db/preflight.py:963-1004 | The preflight consistency query is true in every state reachable from a fresh database |
| `DatasetLifecycle.DatasetsMoveForward` | alembic/versions/0001_database_foundation.py:394-411 | Over any run datasets are never removed or changed but for their status, which never goes back |
| `ConcurrentLifecycle.NextKeepsSound` | alembic/versions/0006_rebaseline_dataset_cutoff.py:19-95 | Every step of every transaction keeps: written rows are locked, what each transaction sees is sound, at most one activates, and started runs are backed |
| `ConcurrentLifecycle.CommittedActiveIsTheSingleton` | src/financial_agent/db/preflight.py:963-1004 | Over every interleaving of transactions that create, validate, finish, record readiness, activate and start runs, a dataset is committed as active exactly when the singleton row names it, then with the current cutoff and four readiness rows from passing validations; and the preflight query is true |
| `ConcurrentLifecycle.ActivationIsExact` | alembic/versions/0006_rebaseline_dataset_cutoff.py:19-95 | An activation that need not wait goes through exactly when its transaction sees a validated dataset of the current cutoff with all four components; it then sees that dataset active, the one before retired and nothing else changed; one that must wait changes no row |
| `ConcurrentLifecycle.CallActsOnView` | alembic/versions/0001_database_foundation.py:450-572 | A call that need not wait succeeds exactly when it would alone on what its transaction sees, with the same effect; one that must wait changes no row |
| `ConcurrentLifecycle.FinishIsExact` | alembic/versions/0001_database_foundation.py:450-501 | Finishing shows its transaction the dataset as validated if the run passed and failed otherwise, exactly when it sees the run, the dataset building and one manifest |
| `ConcurrentLifecycle.CommitPublishesView` | alembic/versions/0001_database_foundation.py:450-572 | A commit makes what its transaction sees the committed tables |
| `ConcurrentLifecycle.CommittedStatusesHaveValidations` | alembic/versions/0001_database_foundation.py:450-501 | In what is committed a validated, active or retired dataset has a passing validation under its own manifest, and a failed one a failing validation |
| `ConcurrentLifecycle.OneActivationAtATime` | alembic/versions/0006_rebaseline_dataset_cutoff.py:31-39 | No two open transactions have activated |
| `ConcurrentLifecycle.RunsStartOnTheActiveDataset` | alembic/versions/0001_database_foundation.py:692-707 | A started run that is not yet committed names the committed active dataset with the current cutoff, unless its own transaction activates; every committed run names a dataset that is active or has been, with the run's cutoff and all components |
| `ConcurrentLifecycle.CommittedOnlyGrows` | alembic/versions/0001_database_foundation.py:394-411 | Over any interleaving committed rows are never removed, datasets change in nothing but their status, and one that has been active stays active or is retired |
| `Flattening.ListsKeepOrder` | alembic/versions/0005_request_artifacts.py:326-354 | Numbering a flattened list of lists by row_number() gives its concatenation, however the join delivers its rows |
| `Flattening.SelectionKeepsOrder` | alembic/versions/0005_request_artifacts.py:488-550 | Numbering the union of slots and cells gives, block by block, slots first and then cells row by row, however the union delivers its rows |
| `RequestDatabase.Database.AppendRequestArtifact` | alembic/versions/0005_request_artifacts.py:251-310 | Derivation, checks, conflict lookup and insertion together give the specified state and result |
| `RequestDatabase.Database.InsertRows` | alembic/versions/0005_request_artifacts.py:312-617 | The artifact, its references and its subtasks are inserted together or not at all |
| `ArtifactProperties.AlwaysSound` | alembic/versions/0005_request_artifacts.py:190-625 | Every reachable state keeps unique artifacts that derive from their payloads and reference tables that hold exactly their references |
| `ArtifactProperties.NoTwoShareAnObjectId` | alembic/versions/0011_semantic_query_artifacts.py:44-112 | No two artifacts of a run and type share a payload or a non-null object id |
| `ArtifactProperties.ReplayReturnsSameId` | alembic/versions/0005_request_artifacts.py:261-310 | Once an append has succeeded, the same append returns the same id and changes nothing, whatever calls come in between |
| `ArtifactProperties.ConflictIsExact` | alembic/versions/0011_semantic_query_artifacts.py:113-172 | An append that meets an artifact it may not coexist with succeeds only if that artifact has the same payload, model and prompt |
| `LedgerCalls.AppendIsExact` | alembic/versions/0005_request_artifacts.py:190-625 | In a reachable state an append succeeds exactly for a payload with its metadata that passes the table's checks and is stored already, or clashes with nothing, has its run, knows every target and fits its subtasks |
| `ArtifactProperties.OrdinalsFollowPayload` | alembic/versions/0005_request_artifacts.py:312-617 | For every role but 'checked' the references of an artifact are numbered 0 to n-1 in nested payload order, one for each listed target and no others |
| `ArtifactProperties.CheckedKeepPositions` | alembic/versions/0005_request_artifacts.py:443-462 | References in the role 'checked' keep the position that their calculation has among all checks |
| `ArtifactProperties.CheckedContiguousExactly` | alembic/versions/0005_request_artifacts.py:443-462 | They are numbered 0 to n-1 exactly when calculation targets come before all other targets |
| `LedgerExamples.CheckedStartsAtOne` | alembic/versions/0005_request_artifacts.py:443-462 | A report that checks a claim and then a calculation has one reference in the role checked, numbered 1 |
| `RequestDatabase.Database.StartRequestRun` | alembic/versions/0001_database_foundation.py:647-734 | Starting a run gives the specified state and result |
| `OutcomeProperties.StartReplays` | alembic/versions/0001_database_foundation.py:647-734 | After a successful start the same start finds the run's row in every later state, and a start that differs in any field conflicts |
| `LedgerCalls.StartIsExact` | alembic/versions/0001_database_foundation.py:647-734 | A start succeeds exactly for the same run again, or for a new one on the active dataset and its cutoff with a hash as key and up to 55 seconds to go |
| `RequestDatabase.Database.FinishRequestRun` | alembic/versions/0005_request_artifacts.py:626-748 | Finishing a run gives the specified state and result |
| `OutcomeProperties.FinishesOnce` | alembic/versions/0005_request_artifacts.py:651-679 | No later call changes the row of a finished run |
| `OutcomeProperties.FinishReplays` | alembic/versions/0005_request_artifacts.py:651-679 | The call that finished a run, made again, returns the stored row exactly when its outcome was not null |
| `LedgerCalls.FinishIsExact` | alembic/versions/0005_request_artifacts.py:626-748 | A run that has not ended is ended exactly by a completed call with a passing report of its own that recommends the disposition, or by a failed one with a failure code, not before its creation; its row holds what the call passed |
| `OutcomeProperties.SuccessNamesPassingReport` | alembic/versions/0005_request_artifacts.py:681-713 | A run that ended with status 200 names a passing report of its own with the same disposition |
| `OutcomeProperties.OthersFailed` | alembic/versions/0005_request_artifacts.py:714-730 | Every other ended run failed with a server error and a failure code and names no report |
| `OutcomeProperties.NullOutcomeIsAccepted` | alembic/versions/0005_request_artifacts.py:681-748 | A run that ends with status 200 stores a null outcome exactly when the call passed one; wherever a completed outcome is accepted a null one is too, and is stored in its place |
| `LedgerExamples.NullOutcomeIsReached` | alembic/versions/0005_request_artifacts.py:681-692 | From the empty ledger three calls lead to a run that ended with status 200, a passing report and a null outcome |
| `RequestDatabase.Database.CacheVerifiedRelease` | alembic/versions/0012_verified_release_cache.py:100-253 | Caching a release gives the specified state and result |
| `RequestDatabase.Database.GetCachedRelease` | alembic/versions/0012_verified_release_cache.py:256-276 | Reads the released answer under a key |
| `OutcomeProperties.CachedReleaseIsStable` | alembic/versions/0012_verified_release_cache.py:217-276 | What is cached under a key never changes |
| `OutcomeProperties.CachedClaimsAgree` | alembic/versions/0012_verified_release_cache.py:174-216 | A cached answer's bound claims, its plan's slot claims and its report's releaseable claims are one set, each listed without repetition, in artifacts of one scope |
| `LedgerCalls.ReleaseIsExact` | alembic/versions/0012_verified_release_cache.py:130-253 | A release is cached exactly when report, plan and answer are of one run and scope, form one chain over the same claims and carry a response hash, and key and answer are free or hold it already; it is stored under its own key |
| `LedgerCalls.CachedChainAgrees` | alembic/versions/0012_verified_release_cache.py:160-173 | Behind every cached answer the plan names the report, report, plan and answer share one disposition, and the stored hash is the answer's |
| `OutcomeProperties.CachedReportPassed` | alembic/versions/0012_verified_release_cache.py:160-173 | The stored status of the report behind a cached answer is pass exactly when the report carries a status at all |
| `LedgerExamples.SilentReportIsReleased` | alembic/versions/0012_verified_release_cache.py:160-173 | From the empty ledger five calls cache an answer whose report carries no verification status |
| `OutcomeProperties.CacheReplays` | alembic/versions/0012_verified_release_cache.py:225-250 | The call that cached an answer returns the same answer whenever it is made again |
| `Collation.SortedAgree` | alembic/versions/0012_verified_release_cache.py:174-213 | Arrays aggregated in text order are equal exactly when they hold the same texts equally often |
| `CanonicalDecimals.CanonicalDecimal` | src/financial_agent/contracts/values.py:22-45 | The loop that pops zeros and places the point prints what the specification prints |
| `CanonicalDecimals.ParsePrinted` | src/financial_agent/contracts/values.py:17-45 | Every finite decimal prints as a numeral of the grammar and parses back to the same normal form; other values are refused |
| `CanonicalDecimals.RoundTripNumber` | src/financial_agent/contracts/values.py:22-52 | Parsing what was printed gives the same number |
| `CanonicalDecimals.RoundTripText` | src/financial_agent/contracts/values.py:17-52 | Printing the parse of any numeral of the grammar gives that numeral back |
| `CanonicalDecimals.PrintsAlikeExactly` | src/financial_agent/contracts/values.py:22-45 | Two finite decimals print alike exactly when they are the same number, signed zeros and trailing zeros included |
| `CanonicalDecimals.SameNumberSameNormal` | src/financial_agent/contracts/values.py:26-33 | Normal forms of the same number are equal |
| `EmbeddingBuild.CleanCountsMeanBijection` | src/financial_agent/embeddings/repository.py:568-716 | Zero missing, orphan and duplicate counts say exactly that the model's rows and the eligible chunks correspond one to one |
| `EmbeddingBuild.AppendLowersMissing` | src/financial_agent/embeddings/repository.py:440-487 | Appending a batch of missing chunks lowers the missing count by exactly the rows inserted |
| `EmbeddingBuild.ConsistentNeverStalls` | src/financial_agent/embeddings/repository.py:473-487 | On a table whose rows carry their own ids, with injective ids, every row of a batch is inserted |
| `EmbeddingBuild.CleanBeforeIsCleanAfter` | src/financial_agent/embeddings/repository.py:568-716 | After a complete fill of a table without orphans and stale rows, the counts that reconciliation asks for hold exactly when there were no duplicates and no wrong dimensions before |
| `EmbeddingBuild.ExactAndMissing` | src/financial_agent/embeddings/repository.py:601-622 | Without duplicates the join counts exactly the eligible chunks that are not missing |
| `EmbeddingBuild.Repository.AppendEmbeddings` | src/financial_agent/embeddings/repository.py:440-487 | Inserts a row for each chunk except where the id is taken, and returns how many it inserted |
| `EmbeddingBuild.Repository.RegisterModel` | src/financial_agent/embeddings/repository.py:233-264 | A registered model is kept, and another contract under its id and version is refused |
| `EmbeddingBuild.Repository.Reconcile` | src/financial_agent/embeddings/repository.py:568-671 | Counts what the queries count; duplicates are summed group by group in any order |
| `EmbeddingBuild.BatchIsBatch` | src/financial_agent/embeddings/repository.py:380-438 | The limited sorted query returns distinct missing chunks, and none exactly when nothing is missing |
| `EmbeddingBuild.BatchTakesFirst` | src/financial_agent/embeddings/repository.py:380-438 | A batch is full or holds all that is missing, is in order of document and chunk, and leaves out nothing that comes before what it takes |
| `EmbeddingBuild.BuildService.EmbedBatch` | src/financial_agent/embeddings/builder.py:380-399 | A batch appends all of its chunks and adds up the tokens and retries of their replies or, when the provider refuses one, appends nothing |
| `EmbeddingBuild.BuildService.Fill` | src/financial_agent/embeddings/builder.py:255-287 | The fill loop ends for every provider that exhausts its retries finitely often; its rounds account for every call, each lost round for the delay that the rounds lost in a row before it ask for, and its totals are those of the appended rounds |
| `EmbeddingBuild.BuildService.EmbedAll` | src/financial_agent/embeddings/builder.py:244-310 | On success rows and chunks correspond one to one, the inserted count is the initial missing count, inserted and skipped add up to the eligible count, and rows are only ever added; a build whose tables, chunks and provider are as it asks succeeds exactly when the model has neither duplicates nor wrong dimensions to begin with |
| `PacedClient.NcpEmbeddingClient.PaceRequest` | src/financial_agent/embeddings/ncp.py:231-241 | Recorded starts stay at least the minimum interval apart, with a sleep that lasts at least as long as asked |
| `PacedClient.NcpEmbeddingClient.Embed` | src/financial_agent/embeddings/ncp.py:190-229 | Outcome, posts and backoffs are those of the specification, at most max_attempts posts, a success reports posts minus one, blank text posts nothing, and pacing holds over any sequence of calls |
| `PacedClient.AttemptsBounded` | src/financial_agent/embeddings/ncp.py:199-229 | Posts are at most the attempts, retries are posts minus one, and total backoff is at most a minute per allowed retry |
| `PacedClient.ExhaustedExactly` | src/financial_agent/embeddings/ncp.py:211-229 | Retries are exhausted exactly when every allowed post gets a retryable reply |
| `PacedClient.BackoffBounds` | src/financial_agent/embeddings/ncp.py:134-145 | Every backoff lies between nothing and a minute |
| `PacedClient.BackoffIsExact` | src/financial_agent/embeddings/ncp.py:134-145 | A backoff is the seconds of a readable Retry-After header kept between nothing and a minute, and otherwise 1, 2, 4 and from the fourth attempt on 8 seconds |
| `PacedClient.AttemptsAreExact` | src/financial_agent/embeddings/ncp.py:199-229 | Every reply but the last is retryable and followed by its backoff; the last decides: a success needs a 2xx status with a valid body, and every error is the one its reply calls for |
| `PacedClient.PacedSpread` | src/financial_agent/embeddings/ncp.py:231-241 | Over n spacings at least n minimum intervals pass |
| `DocumentPolicy.SelectionIgnoresOrder` | src/financial_agent/documents/policy.py:310-366 | The selection depends only on which candidates there are |
| `DocumentPolicy.SelectionIgnoresPermutation` | src/financial_agent/documents/policy.py:310-366 | Every permutation of the candidates selects the same |
| `DocumentPolicy.IndexedExactly` | src/financial_agent/documents/policy.py:145-366 | A document is selected exactly when the relevant candidates are bound alike and one covers the claims and is admissible: approved publisher, published and available before the cutoff day ends in Seoul, in effect under a nonblank version, exact text; the selected one is preferred to all that do |
| `DocumentPolicy.AdmittedExactly` | src/financial_agent/documents/policy.py:145-209 | A candidate is admitted exactly when it is admissible, said of its fields |
| `DocumentPolicy.FailureIsExact` | src/financial_agent/documents/policy.py:257-366 | When nothing is selected: nothing relevant; candidates not bound alike; sections missing though one is admissible; or the first status of the priority list that a relevant candidate shows, for the least reason, no earlier one being shown by any |
| `DocumentPolicy.RejectedExactly` | src/financial_agent/documents/policy.py:242-254 | The rejected ids are those of the relevant candidates other than the selected one |
| `DocumentPolicy.SelectionBranches` | src/financial_agent/documents/policy.py:310-366 | Which of the three lists is empty decides between INDEXED, SECTION_MISSING and failure |
| `DocumentPolicy.SameFailureSelection` | src/financial_agent/documents/policy.py:284-307 | The reported failure does not depend on the order of the candidates |
| `DocumentPolicy.AuditedIsAdmitted` | src/financial_agent/documents/source_manifest.py:439-480 | An audit-eligible candidate, bound to its target and with exact text, is admitted |
| `DocumentPolicy.AuditAgreesWithAdmission` | src/financial_agent/documents/source_manifest.py:439-480 | For a document that carries a source candidate's metadata the audit finds no problem exactly when the metadata are valid, the tier matches, the type is one of the role's and the document is admissible |
| `DocumentPolicy.AuditedFamilySelects` | src/financial_agent/documents/policy.py:310-366 | A nonempty audited family of one target yields INDEXED if one of it covers the claims and SECTION_MISSING otherwise |
| `ChallengerAccounting.RunCases` | scripts/run_semantic_query_benchmark.py:1957-1984 | The loop leaves three records per case in any completion order and counts cases as specified |
| `ChallengerAccounting.RunChallengerPath` | scripts/run_semantic_query_benchmark.py:1954-2009 | The evidence built from the records passes every accounting check |
| `ChallengerAccounting.ChallengerIsAccounted` | scripts/run_semantic_query_benchmark.py:200-292 | Whatever the calls return and in whatever order they complete, the evidence passes all checks of the validator |
| `ChallengerAccounting.CaseAdds` | scripts/run_semantic_query_benchmark.py:1961-1982 | Three completions in any order leave one record of each type, three successes exactly for a complete case, and a failure otherwise |
| `ChallengerAccounting.Counter` | scripts/run_semantic_query_benchmark.py:1986-1989 | The counting loop is the tally of its keys |
| `ChallengerAccounting.TallySums` | scripts/run_semantic_query_benchmark.py:245-258 | A tally's values are positive and add up to the number of keys |
| `ChallengerAccounting.PercentileCovers` | scripts/run_semantic_query_benchmark.py:2027-2032 | A percentile is one of the samples, with at least that percentage of samples at or below it |
| `ChallengerAccounting.PercentileIsExact` | scripts/run_semantic_query_benchmark.py:2027-2032 | A percentile is the least sample such that, itself left out, at least that percentage of the other samples is at or below it, and no other sample is |
| `ChallengerAccounting.PercentileMonotone` | scripts/run_semantic_query_benchmark.py:2027-2032 | A higher percentage gives no smaller percentile |
| `Sorting.SortSorts` | src/financial_agent/documents/chunking.py:177 | Stable insertion by a total preorder yields an ordered permutation |
| `Sorting.SortIgnoresOrder` | src/financial_agent/documents/chunking.py:177 | When distinct elements never tie, the sorted result does not depend on the input order |

## Left out

- Reading PDF files, HTTP, files, command lines, reports and the triple store: input and output plumbing.
- Heading vocabularies, the bullet pattern, section classification, the outline pattern and the contents pages: uninterpreted predicates and sets.
- The order of text items on a page and the cleaning of table cells: pages arrive as item lists and nonblank cells, as `_page_text_items` leaves them.
- Disjointness of sections after the risk-table split: repeated labels match the first span again, so only slices and order hold there.
- The comparison of sort keys: any total order of keys that ties only on equal keys.
- Budget aggregation over documents, search and embedding texts of chunks, chunk ids and record hashes: computed field by field from what is modelled.
- SHA-256, JSON text and the byte form of payloads: payloads are records, equal exactly when their texts are, and missing lists are read as empty.
- JSON nulls inside payload lists, and dates and timestamps that do not parse: the insert fails on them.
- Case folding and Unicode normalisation.
- The order in which ready nodes leave the queue of the acyclicity check: the model leaves it open, so results hold for every order.
- The query plan's side of graph compatibility (operations, requested capabilities) and literal inputs: single lookups.
- Aggregate checks on calculations and claims, savepoints, and isolation levels other than READ COMMITTED.
- Deadlocks: a transaction may upgrade a shared lock, so freedom from them is not promised.
- DatasetLifecycle.ActivationIsExact: calls run one after another here; `ConcurrentLifecycle` has them in concurrent transactions.
- DatasetLifecycle.Catalog.ActivateDataset: one call at a time, without the advisory and row locks that `ConcurrentLifecycle` has.
- FrozenContent.Database.FinishDatasetValidation: the validation's result is an argument; `DatasetLifecycle` and `ConcurrentLifecycle` look up the validation run and compare manifests.
- RequestDatabase.Database.StartRequestRun: the active dataset is an argument; `ConcurrentLifecycle` reads it from the tables under the locks that the function takes.
- Chunking.ChunkDocumentSections: chunk ids, search and embedding texts and record hashes are not part of a chunk here.
- Key locks that foreign keys take, and waiting as such: a call that must wait may be tried again at any time.
- RequestDatabase.Database.AppendRequestArtifact: one call at a time; concurrent inserts of the same key, where the second waits for the first, are not modelled.
- Grants, ownership, index definitions, search paths, and the text of upgrades and downgrades; results speak of databases that start fresh under the current revision.
- Evidence, calculation and claim rows that references point to: sets that only grow.
- Encoding and decoding of tagged contract values other than decimals: constructor by constructor.
- Decimal digits of a coefficient are given without leading zeros, as the decimal tuple gives them.
- The joins that make a chunk eligible: eligible chunks are a list without repetition, as the keys of the joined tables make it. Token and vector contents beyond length, finiteness and positivity.
- Other writers during an embedding build, canary and sample builds, and retrieval checks.
- PacedClient.NcpEmbeddingClient.Embed: a Retry-After value that is not a number is not modelled; infinite values would be clamped like large ones.
- The order of the rejected ids in a selection: they are a set, which the code lists sorted.
- Locators, media types and identifiers of source candidates, and audit report validation.
- The production path of the benchmark, its promotion verdict and file output: only the validator's production branch is stated. A call that leaves no record, or returns after a failed write of its raw output, is not modelled.
