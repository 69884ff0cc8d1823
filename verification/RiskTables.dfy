/** Which rows of a document's risk tables become sections, said from the rows and the line spans alone. */
module RiskTables {
  import opened Extraction
  import opened Sequences
  import opened Sorting
  import opened Wrappers
  import Chunking
  import Text

  // ----- which rows of risk tables become sections -----

  ghost predicate IsBoundaryRow(h: Headings, row: seq<string>) {
    row != [] && h.isBoundary(h.normalize(row[0]))
  }

  ghost predicate IsRiskCell(h: Headings, cell: string) {
    h.isRisk(h.normalize(cell))
  }

  /** A row that is no boundary and holds a risk heading switches collection on. */
  ghost predicate IsRiskRow(h: Headings, row: seq<string>) {
    !IsBoundaryRow(h, row) && exists i :: 0 <= i < |row| && IsRiskCell(h, row[i])
  }

  /** After rows[..n] collection is on: a page begins with it on, and every boundary row so far has been followed
      by a row with a risk heading. */
  ghost predicate IsCollecting(h: Headings, rows: seq<seq<string>>, n: nat)
    requires n <= |rows|
  {
    forall m: nat | m < n && IsBoundaryRow(h, rows[m]) :: exists k: nat :: m < k < n && IsRiskRow(h, rows[k])
  }

  /** A cell that counts: after the last risk heading of its row, no table header and no number. */
  ghost predicate IsSubstantive(h: Headings, row: seq<string>, i: nat)
    requires i < |row|
  {
    && (forall k | i <= k < |row| :: !IsRiskCell(h, row[k]))
    && !h.isTableHeader(h.normalize(row[i])) && !h.isNumber(row[i])
  }

  /** The cells at `a` and `b` are the last two that count. */
  ghost predicate AreLastTwo(h: Headings, row: seq<string>, a: nat, b: nat) {
    && a < b < |row| && IsSubstantive(h, row, a) && IsSubstantive(h, row, b)
    && forall i: nat | a < i < |row| && i != b :: !IsSubstantive(h, row, i)
  }

  /** Row `n` names the risk in cell `a` with the text in cell `b`. */
  ghost predicate NamesRisk(h: Headings, rows: seq<seq<string>>, n: nat, a: nat, b: nat) {
    && n < |rows| && rows[n] != [] && !IsBoundaryRow(h, rows[n]) && IsCollecting(h, rows, n + 1)
    && AreLastTwo(h, rows[n], a, b) && h.mentionsRisk(rows[n][a]) && |rows[n][b]| >= 10
  }

  ghost predicate RowSays(h: Headings, rows: seq<seq<string>>, n: nat, risk: string, body: string) {
    exists a: nat, b: nat :: NamesRisk(h, rows, n, a, b) && risk == rows[n][a] && body == rows[n][b]
  }

  ghost predicate MatchesCell(span: LineSpan, page: nat, cell: string, after: int) {
    span.page == page && span.text == cell && span.start >= after
  }

  /** spans[i] is the first span on the page that reads as the cell and starts at or after `after`. */
  ghost predicate IsCellSpan(spans: seq<LineSpan>, page: nat, cell: string, after: int, i: nat) {
    && i < |spans| && MatchesCell(spans[i], page, cell, after)
    && forall k: nat | k < i :: !MatchesCell(spans[k], page, cell, after)
  }

  ghost predicate HasNoSpan(spans: seq<LineSpan>, page: nat, cell: string, after: int) {
    forall k: nat | k < |spans| :: !MatchesCell(spans[k], page, cell, after)
  }

  /** The first of the sections that begin earliest. */
  ghost predicate IsFirstEarliest(parents: seq<Section>, q: nat) {
    && q < |parents|
    && (forall x | x in parents :: parents[q].characterStart <= x.characterStart)
    && forall k | 0 <= k < q :: parents[q].characterStart < parents[k].characterStart
  }

  /** The section of a named risk: under the path of the earliest section on its page, from the risk's span to the
      end of the first span after it that reads as its text. */
  ghost predicate IsSectionOfRow(text: string, spans: seq<LineSpan>, page: nat, parents: seq<Section>, risk: string,
                                 body: string, i: nat, j: nat, s: Section)
  {
    && IsCellSpan(spans, page, risk, -1, i) && IsCellSpan(spans, page, body, spans[i].end, j)
    && spans[i].start < spans[j].start
    && s.headingPath != [] && s.headingPath[|s.headingPath| - 1] == risk
    && (exists q: nat :: IsFirstEarliest(parents, q)
                         && s.headingPath[..|s.headingPath| - 1] == parents[q].headingPath)
    && s.exactText == Text.Slice(text, spans[i].start, spans[j].end)
    && s.pageStart == Some(page) && s.pageEnd == Some(page)
    && s.characterStart == spans[i].start && s.characterEnd == spans[j].end
  }

  ghost predicate RowYields(h: Headings, text: string, spans: seq<LineSpan>, page: nat, parents: seq<Section>,
                            rows: seq<seq<string>>, n: nat, s: Section)
  {
    exists risk, body, i: nat, j: nat ::
      RowSays(h, rows, n, risk, body) && IsSectionOfRow(text, spans, page, parents, risk, body, i, j, s)
  }

  /** A named risk whose own cell, or whose text after it, is nowhere on the page. */
  ghost predicate RowFails(h: Headings, spans: seq<LineSpan>, page: nat, rows: seq<seq<string>>, n: nat) {
    exists risk, body :: RowSays(h, rows, n, risk, body) && CellMissing(spans, page, risk, body)
  }

  ghost predicate CellMissing(spans: seq<LineSpan>, page: nat, risk: string, body: string) {
    || HasNoSpan(spans, page, risk, -1)
    || exists i: nat :: IsCellSpan(spans, page, risk, -1, i) && HasNoSpan(spans, page, body, spans[i].end)
  }

  lemma {:induction false} MatchingIsFirst(spans: seq<LineSpan>, k: nat, page: nat, cell: string, after: int)
    requires k <= |spans| && forall i: nat | i < k :: !MatchesCell(spans[i], page, cell, after)
    ensures var r := MatchingSpan(spans, k, page, cell, after);
      if r.None? then HasNoSpan(spans, page, cell, after)
      else exists i: nat :: IsCellSpan(spans, page, cell, after, i) && spans[i] == r.value
    decreases |spans| - k
  {
    if k < |spans| && !MatchesCell(spans[k], page, cell, after) {
      MatchingIsFirst(spans, k + 1, page, cell, after);
    } else if k < |spans| {
      assert IsCellSpan(spans, page, cell, after, k);
    }
  }

  lemma {:induction false} OneCellSpan(spans: seq<LineSpan>, page: nat, cell: string, after: int, i: nat, j: nat)
    requires IsCellSpan(spans, page, cell, after, i) && IsCellSpan(spans, page, cell, after, j)
    ensures i == j
  {
    hide MatchesCell;
  }

  lemma {:induction false} EarliestIsFirst(parents: seq<Section>) returns (q: nat)
    requires parents != []
    ensures IsFirstEarliest(parents, q) && Earliest(parents) == parents[q]
  {
    if |parents| == 1 {
      q := 0;
    } else {
      var front, n := parents[..|parents| - 1], |parents| - 1;
      var before := EarliestIsFirst(front);
      assert parents == front + [parents[n]];
      q := if parents[n].characterStart < parents[before].characterStart then n else before;
      assert forall k | 0 <= k < n :: parents[k] in front && parents[k] == front[k];
    }
  }

  lemma {:induction false} OneEarliest(parents: seq<Section>, p: nat, q: nat)
    requires IsFirstEarliest(parents, p) && IsFirstEarliest(parents, q)
    ensures p == q
  {
    assert parents[p] in parents && parents[q] in parents;
  }

  /** What the row's cells and the page's spans say of a named risk. */
  lemma {:induction false} RiskRowIsExact(text: string, spans: seq<LineSpan>, page: nat, parents: seq<Section>,
                                          risk: string, body: string, s: Section)
    requires parents != []
    ensures var r := RiskRow(text, spans, page, parents, risk, body);
      && (r.CellSpanMissing? <==> CellMissing(spans, page, risk, body))
      && (r == RiskSection(s)
          <==> exists i: nat, j: nat :: IsSectionOfRow(text, spans, page, parents, risk, body, i, j, s))
  {
    hide MatchesCell, Earliest, IsFirstEarliest;
    var q := EarliestIsFirst(parents);
    MatchingIsFirst(spans, 0, page, risk, -1);
    if MatchingSpan(spans, 0, page, risk, -1).Some? {
      var i: nat :| IsCellSpan(spans, page, risk, -1, i)
                    && spans[i] == MatchingSpan(spans, 0, page, risk, -1).value;
      MatchingIsFirst(spans, 0, page, body, spans[i].end);
      SpanIsUnique(spans, page, risk, -1, i);
      var found := MatchingSpan(spans, 0, page, body, spans[i].end);
      hide MatchingSpan, IsCellSpan;
      if found.Some? {
        var j: nat :| IsCellSpan(spans, page, body, spans[i].end, j) && spans[j] == found.value;
        SpanIsUnique(spans, page, body, spans[i].end, j);
        RowSectionIsExact(text, spans, page, parents, risk, body, i, j, q, s);
      } else {
        assert CellMissing(spans, page, risk, body);
        NoSpanNoCell(spans, page, body, spans[i].end);
      }
    } else {
      NoSpanNoCell(spans, page, risk, -1);
    }
  }

  lemma {:induction false} SpanIsUnique(spans: seq<LineSpan>, page: nat, cell: string, after: int, i: nat)
    requires IsCellSpan(spans, page, cell, after, i)
    ensures i < |spans| && !HasNoSpan(spans, page, cell, after)
    ensures forall k: nat | IsCellSpan(spans, page, cell, after, k) :: k == i
  {
    forall k: nat | IsCellSpan(spans, page, cell, after, k) ensures k == i {
      OneCellSpan(spans, page, cell, after, i, k);
    }
    hide MatchesCell;
  }

  lemma {:induction false} NoSpanNoCell(spans: seq<LineSpan>, page: nat, cell: string, after: int)
    requires HasNoSpan(spans, page, cell, after)
    ensures forall k: nat :: !IsCellSpan(spans, page, cell, after, k)
  {
    hide MatchesCell;
  }

  /** With both spans found there is a section exactly when the text's span starts after the risk's, and its fields
      are fixed. */
  lemma {:induction false} RowSectionIsExact(text: string, spans: seq<LineSpan>, page: nat, parents: seq<Section>,
                                             risk: string, body: string, i: nat, j: nat, q: nat, s: Section)
    requires i < |spans| && j < |spans|
    requires IsCellSpan(spans, page, risk, -1, i) && IsCellSpan(spans, page, body, spans[i].end, j)
    requires IsFirstEarliest(parents, q)
    ensures IsSectionOfRow(text, spans, page, parents, risk, body, i, j, s)
       <==> spans[i].start < spans[j].start
            && s == Chunking.Section(parents[q].headingPath + [risk],
                                     Text.Slice(text, spans[i].start, spans[j].end), Some(page), Some(page),
                                     spans[i].start, spans[j].end)
  {
    hide IsCellSpan;
    var path := parents[q].headingPath + [risk];
    assert path[..|path| - 1] == parents[q].headingPath;
    if IsSectionOfRow(text, spans, page, parents, risk, body, i, j, s) {
      var p: nat :| IsFirstEarliest(parents, p) && s.headingPath[..|s.headingPath| - 1] == parents[p].headingPath;
      OneEarliest(parents, p, q);
      assert s.headingPath == s.headingPath[..|s.headingPath| - 1] + [s.headingPath[|s.headingPath| - 1]];
    }
    hide IsFirstEarliest, Text.Slice;
  }

  /** The positions of s[n..] that a filter keeps. */
  lemma {:induction false} FilterPositions<T>(s: seq<T>, n: nat, keep: T -> bool) returns (at: seq<nat>)
    requires n <= |s|
    ensures |at| == |Filter(s[n..], keep)|
    ensures forall i | 0 <= i < |at| :: n <= at[i] < |s| && Filter(s[n..], keep)[i] == s[at[i]]
    ensures forall i, j | 0 <= i < j < |at| :: at[i] < at[j]
    ensures forall k: nat | k < |s| :: k in at <==> n <= k && keep(s[k])
    decreases |s|
  {
    if n == |s| {
      at := [];
    } else {
      var last := |s| - 1;
      assert s[n..][..|s[n..]| - 1] == s[..last][n..];
      at := FilterPositions(s[..last], n, keep);
      if keep(s[last]) {
        at := at + [last];
      }
    }
  }

  lemma {:induction false} HeadingIsLast(h: Headings, cells: seq<string>)
    ensures var n := AfterRiskHeading(h, cells);
      && (forall k | n <= k < |cells| :: !IsRiskCell(h, cells[k]))
      && (n > 0 ==> IsRiskCell(h, cells[n - 1]))
  {
    if cells != [] && !IsRiskCell(h, cells[|cells| - 1]) {
      HeadingIsLast(h, cells[..|cells| - 1]);
    }
  }

  lemma {:induction false} OneLastTwo(h: Headings, row: seq<string>, a: nat, b: nat, c: nat, d: nat)
    requires AreLastTwo(h, row, a, b) && AreLastTwo(h, row, c, d)
    ensures a == c && b == d
  {
    hide IsSubstantive;
  }

  function Substantive(h: Headings, cells: seq<string>): seq<string> {
    Filter(cells[AfterRiskHeading(h, cells)..], cell => !h.isTableHeader(h.normalize(cell)) && !h.isNumber(cell))
  }

  /** The filter keeps the cells that count, in order. */
  lemma {:induction false} SubstantivePositions(h: Headings, row: seq<string>) returns (at: seq<nat>)
    ensures |at| == |Substantive(h, row)|
    ensures forall i | 0 <= i < |at| :: at[i] < |row| && Substantive(h, row)[i] == row[at[i]]
    ensures forall i, j | 0 <= i < j < |at| :: at[i] < at[j]
    ensures forall i: nat | i < |row| :: i in at <==> IsSubstantive(h, row, i)
  {
    var n := AfterRiskHeading(h, row);
    HeadingIsLast(h, row);
    at := FilterPositions(row, n, cell => !h.isTableHeader(h.normalize(cell)) && !h.isNumber(cell));
    hide Filter, AfterRiskHeading;
    forall i: nat | i < |row| ensures i in at <==> IsSubstantive(h, row, i) {
      assert n > 0 ==> (IsSubstantive(h, row, i) ==> n <= i);
    }
  }

  /** The last two cells of the filtered row are the last two that count. */
  lemma {:induction false} LastTwoOfRow(h: Headings, row: seq<string>) returns (a: nat, b: nat)
    ensures var kept := Substantive(h, row);
      if |kept| < 2 then forall c: nat, d: nat :: !AreLastTwo(h, row, c, d)
      else AreLastTwo(h, row, a, b) && row[a] == kept[|kept| - 2] && row[b] == kept[|kept| - 1]
  {
    var at := SubstantivePositions(h, row);
    hide IsSubstantive, Substantive;
    if |at| >= 2 {
      a, b := at[|at| - 2], at[|at| - 1];
      LastTwoPositions(at);
      assert forall i: nat | a < i < |row| && i != b :: i !in at;
    } else {
      a, b := 0, 0;
      forall c: nat, d: nat ensures !AreLastTwo(h, row, c, d) {
        TwoPositions(at, c, d);
      }
    }
  }

  lemma {:induction false} LastTwoPositions(at: seq<nat>)
    requires |at| >= 2 && forall i, j | 0 <= i < j < |at| :: at[i] < at[j]
    ensures forall k | k in at && at[|at| - 2] < k :: k == at[|at| - 1]
  {
    assert forall i | 0 <= i < |at| - 2 :: at[i] < at[|at| - 2];
  }

  lemma {:induction false} TwoPositions(at: seq<nat>, i: int, j: int)
    requires |at| < 2
    ensures !(i < j && i in at && j in at)
  {}

  lemma {:induction false} CollectingAfter(h: Headings, rows: seq<seq<string>>, n: nat)
    requires n < |rows|
    ensures IsCollecting(h, rows, n + 1)
       <==> !IsBoundaryRow(h, rows[n]) && (IsRiskRow(h, rows[n]) || IsCollecting(h, rows, n))
  {
    hide IsBoundaryRow, IsRiskRow;
    if IsCollecting(h, rows, n) && !IsBoundaryRow(h, rows[n]) {
      forall m: nat | m < n + 1 && IsBoundaryRow(h, rows[m])
        ensures exists k: nat :: m < k < n + 1 && IsRiskRow(h, rows[k])
      {
        var k: nat :| m < k < n && IsRiskRow(h, rows[k]);
      }
    }
    if IsCollecting(h, rows, n + 1) && !IsRiskRow(h, rows[n]) {
      forall m: nat | m < n && IsBoundaryRow(h, rows[m])
        ensures exists k: nat :: m < k < n && IsRiskRow(h, rows[k])
      {
        var k: nat :| m < k < n + 1 && IsRiskRow(h, rows[k]);
      }
    }
  }

  /** What a row is read as, from the rows alone. */
  lemma {:induction false} ReadRowIsExact(h: Headings, rows: seq<seq<string>>, n: nat)
    requires n < |rows|
    ensures var reading := ReadRow(h, rows[n], IsCollecting(h, rows, n));
      && (reading.active <==> IsCollecting(h, rows, n + 1))
      && forall risk, body ::
           reading.named == Some((risk, body)) <==> RowSays(h, rows, n, risk, body)
  {
    var row := rows[n];
    CollectingAfter(h, rows, n);
    HeadingIsLast(h, row);
    var a, b := LastTwoOfRow(h, row);
    var k := AfterRiskHeading(h, row);
    assert IsRiskRow(h, row) <==> !IsBoundaryRow(h, row) && k > 0;
    hide IsCollecting, IsRiskRow, AfterRiskHeading, Substantive, IsRiskCell, AreLastTwo, RowSays;
    var reading := ReadRow(h, row, IsCollecting(h, rows, n));
    ReadRowReads(h, row, IsCollecting(h, rows, n));
    hide ReadRow;
    RowNames(h, rows, n, a, b, reading);
  }

  lemma {:induction false} ReadRowReads(h: Headings, row: seq<string>, active: bool)
    ensures var reading, kept := ReadRow(h, row, active), Substantive(h, row);
      var on := if row == [] then active
                else !IsBoundaryRow(h, row) && (active || AfterRiskHeading(h, row) > 0);
      && reading.active == on
      && reading.named ==
           (if row == [] || IsBoundaryRow(h, row) || !on || |kept| < 2
               || !h.mentionsRisk(kept[|kept| - 2]) || |kept[|kept| - 1]| < 10 then None
            else Some((kept[|kept| - 2], kept[|kept| - 1])))
  {
    hide AfterRiskHeading, Filter;
  }

  lemma {:induction false} RowNames(h: Headings, rows: seq<seq<string>>, n: nat, a: nat, b: nat, reading: RowReading)
    requires n < |rows|
    requires var kept := Substantive(h, rows[n]);
      && (if |kept| < 2 then forall c: nat, d: nat :: !AreLastTwo(h, rows[n], c, d)
          else AreLastTwo(h, rows[n], a, b) && rows[n][a] == kept[|kept| - 2] && rows[n][b] == kept[|kept| - 1])
      && reading.named ==
           (if rows[n] == [] || IsBoundaryRow(h, rows[n]) || !IsCollecting(h, rows, n + 1) || |kept| < 2
               || !h.mentionsRisk(kept[|kept| - 2]) || |kept[|kept| - 1]| < 10 then None
            else Some((kept[|kept| - 2], kept[|kept| - 1])))
    ensures forall risk, body ::
              reading.named == Some((risk, body)) <==> RowSays(h, rows, n, risk, body)
  {
    hide IsCollecting, IsBoundaryRow, AreLastTwo, Substantive;
    forall c: nat, d: nat | NamesRisk(h, rows, n, c, d) ensures c == a && d == b && NamesRisk(h, rows, n, a, b) {
      OneLastTwo(h, rows[n], a, b, c, d);
    }
    if reading.named.Some? {
      assert b < |rows[n]| && a < b by { LastTwoInRow(h, rows[n], a, b); }
      assert NamesRisk(h, rows, n, a, b);
    }
  }

  lemma {:induction false} LastTwoInRow(h: Headings, row: seq<string>, a: nat, b: nat)
    requires AreLastTwo(h, row, a, b)
    ensures a < b < |row|
  {}

  /** The sections are those of the rows at the positions `at`, in order, and no other row yields one. */
  ghost predicate AreYields(h: Headings, text: string, spans: seq<LineSpan>, page: nat, parents: seq<Section>,
                            rows: seq<seq<string>>, n: nat, sections: seq<Section>, at: seq<nat>)
  {
    && |at| == |sections|
    && (forall i | 0 <= i < |at| :: at[i] < n && RowYields(h, text, spans, page, parents, rows, at[i], sections[i]))
    && (forall i, j | 0 <= i < j < |at| :: at[i] < at[j])
    && forall k: nat, s | k < n && RowYields(h, text, spans, page, parents, rows, k, s) :: k in at
  }

  /** What one row makes of collection being on or off. */
  function RowOutcome(h: Headings, text: string, spans: seq<LineSpan>, page: nat, parents: seq<Section>,
                      row: seq<string>, active: bool): RowResult
    requires parents != []
  {
    var named := ReadRow(h, row, active).named;
    if named.None? then NoSection else RiskRow(text, spans, page, parents, named.value.0, named.value.1)
  }

  /** What row `n` adds, from the rows and spans alone. */
  lemma {:induction false} OneRowIsExact(h: Headings, text: string, spans: seq<LineSpan>, page: nat,
                                         parents: seq<Section>, rows: seq<seq<string>>, n: nat, s: Section)
    requires parents != [] && n < |rows|
    ensures var r := RowOutcome(h, text, spans, page, parents, rows[n], IsCollecting(h, rows, n));
      && (r.CellSpanMissing? <==> RowFails(h, spans, page, rows, n))
      && (r == RiskSection(s) <==> RowYields(h, text, spans, page, parents, rows, n, s))
  {
    hide ReadRow, RiskRow, CellMissing, IsSectionOfRow, RowSays;
    ReadRowIsExact(h, rows, n);
    hide IsCollecting;
    var named := ReadRow(h, rows[n], IsCollecting(h, rows, n)).named;
    if named.Some? {
      var (risk, body) := named.value;
      assert RowSays(h, rows, n, risk, body);
      RiskRowIsExact(text, spans, page, parents, risk, body, s);
    } else {
      assert forall risk, body :: !RowSays(h, rows, n, risk, body);
    }
  }

  /** Splitting a page fails exactly when a row names a risk whose cells have no spans; otherwise the sections are
      those of the rows that yield one, in row order, and collection ends as the rows leave it. */
  lemma {:induction false} RiskRowsAreExact(h: Headings, text: string, spans: seq<LineSpan>, page: nat,
                                            parents: seq<Section>, rows: seq<seq<string>>, n: nat)
    returns (at: seq<nat>)
    requires parents != [] && n <= |rows|
    ensures var r := RiskRows(h, text, spans, page, parents, rows, n);
      && (r.None? <==> exists k: nat :: k < n && RowFails(h, spans, page, rows, k))
      && (r.Some? ==>
            && (r.value.1 <==> IsCollecting(h, rows, n))
            && AreYields(h, text, spans, page, parents, rows, n, r.value.0, at))
  {
    hide ReadRow, RowOutcome, RowFails, RowYields, IsCollecting, AreYields;
    if n == 0 {
      at := [];
      NothingRead(h, text, spans, page, parents, rows);
    } else {
      at := RiskRowsAreExact(h, text, spans, page, parents, rows, n - 1);
      var k: nat, before := n - 1, RiskRows(h, text, spans, page, parents, rows, n - 1);
      FailsUpTo(h, spans, page, rows, k);
      if before.Some? {
        var r := RowOutcome(h, text, spans, page, parents, rows[k], before.value.1);
        forall s ensures (r.CellSpanMissing? <==> RowFails(h, spans, page, rows, k))
                         && (r == RiskSection(s) <==> RowYields(h, text, spans, page, parents, rows, k, s)) {
          OneRowIsExact(h, text, spans, page, parents, rows, k, s);
        }
        var none := Chunking.Section([], "", None, None, 0, 0);
        OneRowIsExact(h, text, spans, page, parents, rows, k, none);
        ReadRowIsExact(h, rows, k);
        RiskRowsStep(h, text, spans, page, parents, rows, k);
        YieldsGrow(h, text, spans, page, parents, rows, k, before.value.0, at, r);
        at := at + if r.RiskSection? then [k] else [];
      }
    }
  }

  lemma {:induction false} FailsUpTo(h: Headings, spans: seq<LineSpan>, page: nat, rows: seq<seq<string>>, n: nat)
    ensures (exists k: nat :: k < n + 1 && RowFails(h, spans, page, rows, k))
       <==> RowFails(h, spans, page, rows, n) || exists k: nat :: k < n && RowFails(h, spans, page, rows, k)
  {
    hide RowFails;
  }

  /** Reading row `n` adds its section or nothing. */
  lemma {:induction false} YieldsGrow(h: Headings, text: string, spans: seq<LineSpan>, page: nat,
                                      parents: seq<Section>, rows: seq<seq<string>>, n: nat, sections: seq<Section>,
                                      at: seq<nat>, r: RowResult)
    requires AreYields(h, text, spans, page, parents, rows, n, sections, at)
    requires forall s :: r == RiskSection(s) <==> RowYields(h, text, spans, page, parents, rows, n, s)
    ensures AreYields(h, text, spans, page, parents, rows, n + 1,
                      sections + if r.RiskSection? then [r.section] else [],
                      at + if r.RiskSection? then [n] else [])
  {
    hide RowYields;
  }

  lemma {:induction false} RiskRowsStep(h: Headings, text: string, spans: seq<LineSpan>, page: nat,
                                        parents: seq<Section>, rows: seq<seq<string>>, n: nat)
    requires parents != [] && n < |rows| && RiskRows(h, text, spans, page, parents, rows, n).Some?
    ensures var before := RiskRows(h, text, spans, page, parents, rows, n).value;
      var r := RowOutcome(h, text, spans, page, parents, rows[n], before.1);
      RiskRows(h, text, spans, page, parents, rows, n + 1)
      == if r.CellSpanMissing? then None
         else Some((before.0 + if r.RiskSection? then [r.section] else [], ReadRow(h, rows[n], before.1).active))
  {
    hide ReadRow, RiskRow;
    var sections := RiskRows(h, text, spans, page, parents, rows, n).value.0;
    assert sections + [] == sections;
  }

  lemma {:induction false} NothingRead(h: Headings, text: string, spans: seq<LineSpan>, page: nat,
                                       parents: seq<Section>, rows: seq<seq<string>>)
    ensures IsCollecting(h, rows, 0) && AreYields(h, text, spans, page, parents, rows, 0, [], [])
  {}

  /** Row `n` of page `k`, whose aggregate risk sections are the parents, yields the section. */
  ghost predicate PageYields(h: Headings, text: string, spans: seq<LineSpan>, aggregate: seq<Section>,
                             pages: seq<Page>, k: nat, n: nat, s: Section)
  {
    && 1 <= k <= |pages| && n < |pages[k - 1].rows| && SectionsOnPage(aggregate, k) != []
    && RowYields(h, text, spans, k, SectionsOnPage(aggregate, k), pages[k - 1].rows, n, s)
  }

  ghost predicate SomeRowFails(h: Headings, spans: seq<LineSpan>, page: nat, rows: seq<seq<string>>) {
    exists n: nat :: n < |rows| && RowFails(h, spans, page, rows, n)
  }

  /** A page with aggregate risk sections has a row whose cells have no spans. */
  ghost predicate PageFails(h: Headings, spans: seq<LineSpan>, aggregate: seq<Section>, pages: seq<Page>, k: nat) {
    && 1 <= k <= |pages| && SectionsOnPage(aggregate, k) != []
    && SomeRowFails(h, spans, k, pages[k - 1].rows)
  }

  ghost predicate SomePageFails(h: Headings, spans: seq<LineSpan>, aggregate: seq<Section>, pages: seq<Page>, k: nat) {
    exists p: nat :: p <= k && PageFails(h, spans, aggregate, pages, p)
  }

  ghost predicate SomePageYields(h: Headings, text: string, spans: seq<LineSpan>, aggregate: seq<Section>,
                                 pages: seq<Page>, k: nat, s: Section)
  {
    exists p: nat, n: nat :: p <= k && PageYields(h, text, spans, aggregate, pages, p, n, s)
  }

  lemma {:induction false} OnePageIsExact(h: Headings, text: string, spans: seq<LineSpan>, aggregate: seq<Section>,
                                          pages: seq<Page>, k: nat, s: Section)
    requires 1 <= k <= |pages| && SectionsOnPage(aggregate, k) != []
    ensures var rows := pages[k - 1].rows;
      var r := RiskRows(h, text, spans, k, SectionsOnPage(aggregate, k), rows, |rows|);
      && (r.None? <==> PageFails(h, spans, aggregate, pages, k))
      && (r.Some? ==>
            (s in r.value.0 <==> exists n: nat :: PageYields(h, text, spans, aggregate, pages, k, n, s)))
  {
    hide RiskRows, SectionsOnPage, RowFails, RowYields, IsCollecting;
    var rows, parents := pages[k - 1].rows, SectionsOnPage(aggregate, k);
    var at := RiskRowsAreExact(h, text, spans, k, parents, rows, |rows|);
    var r := RiskRows(h, text, spans, k, parents, rows, |rows|);
    if r.Some? {
      YieldedExactly(h, text, spans, k, parents, rows, r.value.0, at, s);
      hide AreYields;
      if n: nat :| n < |rows| && RowYields(h, text, spans, k, parents, rows, n, s) {
        assert PageYields(h, text, spans, aggregate, pages, k, n, s);
      }
    }
  }

  lemma {:induction false} YieldedExactly(h: Headings, text: string, spans: seq<LineSpan>, page: nat,
                                          parents: seq<Section>, rows: seq<seq<string>>, sections: seq<Section>,
                                          at: seq<nat>, s: Section)
    requires AreYields(h, text, spans, page, parents, rows, |rows|, sections, at)
    ensures s in sections
       <==> exists n: nat :: n < |rows| && RowYields(h, text, spans, page, parents, rows, n, s)
  {
    hide RowYields;
    if n: nat :| n < |rows| && RowYields(h, text, spans, page, parents, rows, n, s) {
      var i :| 0 <= i < |at| && at[i] == n;
      OneYield(h, text, spans, page, parents, rows, n, s, sections[i]);
    }
  }

  /** A row yields at most one section. */
  lemma {:induction false} OneYield(h: Headings, text: string, spans: seq<LineSpan>, page: nat, parents: seq<Section>,
                                    rows: seq<seq<string>>, n: nat, s: Section, t: Section)
    requires RowYields(h, text, spans, page, parents, rows, n, s)
    requires RowYields(h, text, spans, page, parents, rows, n, t)
    ensures s == t
  {
    YieldNeedsParent(h, text, spans, page, parents, rows, n, s);
    hide RowYields, RowOutcome, IsCollecting;
    OneRowIsExact(h, text, spans, page, parents, rows, n, s);
    OneRowIsExact(h, text, spans, page, parents, rows, n, t);
  }

  lemma {:induction false} YieldNeedsParent(h: Headings, text: string, spans: seq<LineSpan>, page: nat,
                                            parents: seq<Section>, rows: seq<seq<string>>, n: nat, s: Section)
    requires RowYields(h, text, spans, page, parents, rows, n, s)
    ensures parents != [] && n < |rows|
  {
    hide IsCollecting, IsCellSpan, AreLastTwo, IsBoundaryRow;
  }

  lemma {:induction false} PagesAreExact(h: Headings, text: string, spans: seq<LineSpan>, aggregate: seq<Section>,
                                         pages: seq<Page>, k: nat, s: Section)
    requires k <= |pages|
    ensures var r := RiskPages(h, text, spans, aggregate, pages, k);
      && (r.None? <==> SomePageFails(h, spans, aggregate, pages, k))
      && (r.Some? ==> (s in r.value <==> SomePageYields(h, text, spans, aggregate, pages, k, s)))
  {
    hide RiskRows, SectionsOnPage;
    if k > 0 {
      PagesAreExact(h, text, spans, aggregate, pages, k - 1, s);
      if SectionsOnPage(aggregate, k) != [] {
        OnePageIsExact(h, text, spans, aggregate, pages, k, s);
      } else {
        assert !PageFails(h, spans, aggregate, pages, k);
        assert forall n: nat :: !PageYields(h, text, spans, aggregate, pages, k, n, s);
      }
      hide PageFails, PageYields;
      UpToPage(h, text, spans, aggregate, pages, k, s);
    }
  }

  lemma {:induction false} UpToPage(h: Headings, text: string, spans: seq<LineSpan>, aggregate: seq<Section>,
                                    pages: seq<Page>, k: nat, s: Section)
    requires k > 0
    ensures SomePageFails(h, spans, aggregate, pages, k)
       <==> SomePageFails(h, spans, aggregate, pages, k - 1) || PageFails(h, spans, aggregate, pages, k)
    ensures SomePageYields(h, text, spans, aggregate, pages, k, s)
       <==> SomePageYields(h, text, spans, aggregate, pages, k - 1, s)
            || exists n: nat :: PageYields(h, text, spans, aggregate, pages, k, n, s)
  {
    hide PageFails, PageYields;
  }

  /** A section that some row of a risk table yields. */
  ghost predicate IsSplit(h: Headings, text: string, spans: seq<LineSpan>, pages: seq<Page>, sections: seq<Section>,
                          s: Section)
  {
    SomePageYields(h, text, spans, AggregateRisks(h, sections), pages, |pages|, s)
  }

  /** An aggregate risk section with a split section on one of its pages. */
  ghost predicate IsReplaced(h: Headings, text: string, spans: seq<LineSpan>, pages: seq<Page>,
                             sections: seq<Section>, s: Section)
  {
    && IsAggregateRisk(h, s)
    && exists x :: IsSplit(h, text, spans, pages, sections, x) && x.pageStart.Some? && OnPage(s, x.pageStart.value)
  }

  /** Splitting fails exactly when some page does. Otherwise what comes out is every section that is not replaced
      and every section that a row yields, and nothing else. */
  lemma {:induction false} SplitIsExact(h: Headings, text: string, spans: seq<LineSpan>, pages: seq<Page>,
                                        sections: seq<Section>)
    ensures var r := SplitRiskTables(h, text, spans, pages, sections);
      && (r.None? <==> SomePageFails(h, spans, AggregateRisks(h, sections), pages, |pages|))
      && (r.Some? ==>
            forall s ::
              s in r.value
              <==> (s in sections && !IsReplaced(h, text, spans, pages, sections, s))
                   || IsSplit(h, text, spans, pages, sections, s))
  {
    hide RiskPages, SomePageFails, SomePageYields, IsAggregateRisk, AggregateRisks, OnPage;
    var aggregate := AggregateRisks(h, sections);
    var r, split := SplitRiskTables(h, text, spans, pages, sections),
        RiskPages(h, text, spans, aggregate, pages, |pages|);
    forall s ensures && (split.None? <==> SomePageFails(h, spans, aggregate, pages, |pages|))
                     && (split.Some? ==> (s in split.value <==> IsSplit(h, text, spans, pages, sections, s))) {
      PagesAreExact(h, text, spans, aggregate, pages, |pages|, s);
    }
    var none := Chunking.Section([], "", None, None, 0, 0);
    PagesAreExact(h, text, spans, aggregate, pages, |pages|, none);
    if aggregate == [] {
      NoParentsNoSplit(h, text, spans, pages);
    }
    if split.Some? {
      ResultMembers(h, text, spans, pages, sections, split.value);
    }
  }

  lemma {:induction false} NoParentsNoSplit(h: Headings, text: string, spans: seq<LineSpan>, pages: seq<Page>)
    ensures RiskPages(h, text, spans, [], pages, |pages|) == Some([])
  {
    NoParents(h, text, spans, pages, |pages|);
  }

  lemma {:induction false} NoParents(h: Headings, text: string, spans: seq<LineSpan>, pages: seq<Page>, k: nat)
    requires k <= |pages|
    ensures RiskPages(h, text, spans, [], pages, k) == Some([])
  {
    hide RiskRows;
    if k > 0 {
      NoParents(h, text, spans, pages, k - 1);
      assert SectionsOnPage([], k) == [];
    }
  }

  lemma {:induction false} ResultMembers(h: Headings, text: string, spans: seq<LineSpan>, pages: seq<Page>,
                                         sections: seq<Section>, split: seq<Section>)
    requires forall s :: s in split <==> IsSplit(h, text, spans, pages, sections, s)
    ensures forall s ::
              s in (if split == [] then sections
                    else Sort(RetainedSections(h, sections, split) + split, ByStart()))
              <==> (s in sections && !IsReplaced(h, text, spans, pages, sections, s))
                   || IsSplit(h, text, spans, pages, sections, s)
  {
    hide IsSplit, IsAggregateRisk, OnPage;
    FilterMembers(sections, s => Retained(h, split, s));
    forall s ensures Retained(h, split, s) <==> !IsReplaced(h, text, spans, pages, sections, s) {}
    var all := RetainedSections(h, sections, split) + split;
    SortKeepsElements(all, ByStart());
    SameMembers(Sort(all, ByStart()), all);
    hide Retained, IsReplaced, Sort, ByStart;
    assert split == [] ==> forall s :: !IsSplit(h, text, spans, pages, sections, s);
    if split == [] {
      forall s ensures !IsReplaced(h, text, spans, pages, sections, s) {
        NothingReplaced(h, text, spans, pages, sections, s);
      }
    }
  }

  lemma {:induction false} NothingReplaced(h: Headings, text: string, spans: seq<LineSpan>, pages: seq<Page>,
                                           sections: seq<Section>, s: Section)
    requires forall x :: !IsSplit(h, text, spans, pages, sections, x)
    ensures !IsReplaced(h, text, spans, pages, sections, s)
  {
    hide IsSplit;
  }
}
