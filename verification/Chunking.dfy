/** Selection of approved sections, their candidate windows, removal of duplicates and the verdict. */
module Chunking {
  import opened Wrappers
  import opened Text
  import opened Segmentation
  import opened Windows
  import opened Sequences
  import opened Sorting

  datatype Section = Section(
    headingPath: seq<string>,
    exactText: string,
    pageStart: Option<int>,
    pageEnd: Option<int>,
    characterStart: int,
    characterEnd: int)

  datatype SectionKey = SectionKey(
    characterStart: int,
    characterEnd: int,
    normalizedPath: seq<string>,
    headingPath: seq<string>,
    exactText: string)

  /** The configuration of one call: token targets, limits, and the functions the model does not look into.
      `classify` gives the approved section type, if any; `keyOrder` compares sort keys. */
  datatype Config = Config(
    classify: Section -> Option<string>,
    normalize: seq<string> -> seq<string>,
    keyOrder: (SectionKey, SectionKey) -> bool,
    isBullet: string -> bool,
    hash: string -> string,
    count: string -> nat,
    targetMin: int,
    targetMax: int,
    overlap: int,
    softLimit: int,
    tokenLimit: int,
    scopeId: string)
  {
    predicate Accepted() {
      0 <= targetMin <= targetMax && 0 < targetMax && 0 <= overlap && 0 <= softLimit && 0 <= tokenLimit
    }
  }

  datatype Span = Span(section: Section, sectionType: string, start: nat, end: nat, oversized: bool)

  datatype Chunk = Chunk(
    ordinal: nat,
    section: Section,
    sectionType: string,
    characterStart: int,
    characterEnd: int,
    exactText: string,
    contentHash: string)

  datatype Coverage = Indexed | SectionMissing | ReviewRequired

  datatype Outcome = Outcome(chunks: seq<Chunk>, status: Coverage, reason: Option<string>, tokens: nat)

  function Key(config: Config, s: Section): SectionKey {
    SectionKey(s.characterStart, s.characterEnd, config.normalize(s.headingPath), s.headingPath, s.exactText)
  }

  function SectionOrder(config: Config): (Section, Section) -> bool {
    (a, b) => config.keyOrder(Key(config, a), Key(config, b))
  }

  // ----- validation -----

  function BudgetProblem(config: Config): Option<string> {
    if config.targetMin < 0 || config.targetMax <= 0 || config.targetMin > config.targetMax then
      Some("chunk token targets must satisfy 0 <= target_min <= target_max")
    else if config.overlap < 0 || config.softLimit < 0 || config.tokenLimit < 0 then
      Some("overlap and soft limits must be non-negative")
    else if Blank(config.scopeId) then Some("budget_scope_id must not be blank")
    else None
  }

  function SectionProblem(s: Section): Option<string> {
    if s.pageStart.None? != s.pageEnd.None? then Some("section page range must be complete")
    else if s.pageStart.Some? && (s.pageStart.value < 1 || s.pageEnd.value < s.pageStart.value) then
      Some("section page range must be one-based and ordered")
    else if s.characterStart < 0 || s.characterEnd < s.characterStart then
      Some("section character range must be non-negative and ordered")
    else if s.characterEnd - s.characterStart != |s.exactText| then
      Some("section character range must match exact_text length")
    else None
  }

  // ----- candidate windows of one section -----

  function ParagraphHash(config: Config, text: string, r: Range): string {
    config.hash(Strip(Slice(text, r.start, r.end)))
  }

  /** The paragraph hashes of ranges[..k]. */
  function HashesUpTo(config: Config, text: string, ranges: seq<Range>, k: nat): set<string>
    requires k <= |ranges|
  {
    set i | 0 <= i < k :: ParagraphHash(config, text, ranges[i])
  }

  function UnitsOf(config: Config, text: string, r: Range): seq<Unit>
    requires config.Accepted()
  {
    if r.start <= r.end <= |text| then SemanticUnits(text, r.start, r.end, r.bullet, config.count, config.targetMax)
    else []
  }

  /** Unit groups of ranges[k..]: a paragraph seen before is dropped and ends the group under construction. */
  function GroupsFrom(config: Config, text: string, ranges: seq<Range>, k: nat, seen: set<string>,
                      current: seq<Unit>): seq<seq<Unit>>
    requires config.Accepted() && k <= |ranges|
    decreases |ranges| - k
  {
    if k == |ranges| then
      if current == [] then [] else [current]
    else
      var h := ParagraphHash(config, text, ranges[k]);
      if h in seen then
        (if current == [] then [] else [current]) + GroupsFrom(config, text, ranges, k + 1, seen, [])
      else
        GroupsFrom(config, text, ranges, k + 1, seen + {h}, current + UnitsOf(config, text, ranges[k]))
  }

  function ToSpan(config: Config, section: Section, sectionType: string, units: seq<Unit>): Span
    requires config.Accepted() && units != []
  {
    Span(section, sectionType, units[0].start, units[|units| - 1].end,
         exists i | 0 <= i < |units| ::
             units[i].indivisible && CountUnits(section.exactText, [units[i]], config.count) > config.targetMax)
  }

  function SpansUpTo(config: Config, section: Section, sectionType: string, windows: seq<seq<Unit>>, n: nat): seq<Span>
    requires config.Accepted() && n <= |windows| && NonEmpty(windows)
  {
    if n == 0 then []
    else SpansUpTo(config, section, sectionType, windows, n - 1)
         + [ToSpan(config, section, sectionType, windows[n - 1])]
  }

  lemma {:induction false} WindowsNonEmpty(text: string, units: seq<Unit>, count: string -> nat, targetMin: nat,
                                           targetMax: nat, overlap: nat)
    ensures NonEmpty(BoundedUnitGroups(text, units, count, targetMin, targetMax, overlap))
  {
    BaseGroupsNonEmpty(text, units, count, targetMin, targetMax);
    var groups := BaseGroups(text, units, count, targetMin, targetMax);
    WindowsAt(text, groups, |groups|, count, targetMax, overlap);
    hide OverlapOf;
    forall i | 0 <= i < |groups| ensures Window(text, groups, i, count, targetMax, overlap) != [] {
      assert groups[i] != [];
    }
  }

  function GroupSpans(config: Config, section: Section, sectionType: string, group: seq<Unit>): seq<Span>
    requires config.Accepted()
  {
    WindowsNonEmpty(section.exactText, group, config.count, config.targetMin, config.targetMax, config.overlap);
    var windows := BoundedUnitGroups(section.exactText, group, config.count, config.targetMin, config.targetMax,
                                     config.overlap);
    SpansUpTo(config, section, sectionType, windows, |windows|)
  }

  /** Candidate windows of groups[..n]. */
  function AllGroupSpans(config: Config, section: Section, sectionType: string, groups: seq<seq<Unit>>,
                         n: nat): seq<Span>
    requires config.Accepted() && n <= |groups|
  {
    if n == 0 then []
    else AllGroupSpans(config, section, sectionType, groups, n - 1)
         + GroupSpans(config, section, sectionType, groups[n - 1])
  }

  function SectionGroups(config: Config, section: Section, seen: set<string>): seq<seq<Unit>>
    requires config.Accepted()
  {
    GroupsFrom(config, section.exactText, SemanticRanges(section.exactText, config.isBullet), 0, seen, [])
  }

  function SectionSpans(config: Config, section: Section, sectionType: string, seen: set<string>): seq<Span>
    requires config.Accepted()
  {
    var groups := SectionGroups(config, section, seen);
    AllGroupSpans(config, section, sectionType, groups, |groups|)
  }

  function SectionHashes(config: Config, section: Section): set<string> {
    var ranges := SemanticRanges(section.exactText, config.isBullet);
    HashesUpTo(config, section.exactText, ranges, |ranges|)
  }

  // ----- the whole document -----

  predicate Approved(config: Config, section: Section) {
    config.classify(section).Some? && !Blank(section.exactText)
  }

  /** Paragraph hashes of the approved sections among sections[..i]. */
  function SeenBefore(config: Config, sections: seq<Section>, i: nat): set<string>
    requires i <= |sections|
  {
    if i == 0 then {}
    else if Approved(config, sections[i - 1]) then
      SeenBefore(config, sections, i - 1) + SectionHashes(config, sections[i - 1])
    else SeenBefore(config, sections, i - 1)
  }

  /** Candidate windows of sections[..i], which are in key order. */
  function Candidates(config: Config, sections: seq<Section>, i: nat): seq<Span>
    requires config.Accepted() && i <= |sections|
  {
    if i == 0 then []
    else if Approved(config, sections[i - 1]) then
      Candidates(config, sections, i - 1)
      + SectionSpans(config, sections[i - 1], config.classify(sections[i - 1]).value,
                     SeenBefore(config, sections, i - 1))
    else Candidates(config, sections, i - 1)
  }

  function SpanText(span: Span): string {
    Slice(span.section.exactText, span.start, span.end)
  }

  function Draft(config: Config, span: Span, ordinal: nat): Chunk {
    Chunk(ordinal, span.section, span.sectionType, span.section.characterStart + span.start,
          span.section.characterStart + span.end, SpanText(span), config.hash(SpanText(span)))
  }

  /** Among candidates[..k], those whose content hash no earlier one has. */
  function Kept(config: Config, candidates: seq<Span>, k: nat): seq<Span>
    requires k <= |candidates|
  {
    if k == 0 then []
    else
      var kept := Kept(config, candidates, k - 1);
      var h := config.hash(SpanText(candidates[k - 1]));
      if h in KeptHashes(config, kept) then kept else kept + [candidates[k - 1]]
  }

  function KeptHashes(config: Config, kept: seq<Span>): set<string> {
    set i | 0 <= i < |kept| :: config.hash(SpanText(kept[i]))
  }

  function Drafts(config: Config, kept: seq<Span>): (chunks: seq<Chunk>)
    ensures |chunks| == |kept|
    ensures forall i | 0 <= i < |kept| :: chunks[i] == Draft(config, kept[i], i + 1)
  {
    if kept == [] then []
    else Drafts(config, kept[..|kept| - 1]) + [Draft(config, kept[|kept| - 1], |kept|)]
  }

  function TokenSum(count: string -> nat, chunks: seq<Chunk>): nat {
    if chunks == [] then 0 else TokenSum(count, chunks[..|chunks| - 1]) + count(chunks[|chunks| - 1].exactText)
  }

  /** How many of the kept windows come from sections with sort key `key`. */
  function CountOfKey(config: Config, kept: seq<Span>, key: SectionKey): nat {
    if kept == [] then 0
    else CountOfKey(config, kept[..|kept| - 1], key) + (if Key(config, kept[|kept| - 1].section) == key then 1 else 0)
  }

  predicate AnyOversized(kept: seq<Span>) {
    exists i | 0 <= i < |kept| :: kept[i].oversized
  }

  predicate OverSoftLimit(config: Config, kept: seq<Span>) {
    || |kept| > config.softLimit
    || exists i | 0 <= i < |kept| :: CountOfKey(config, kept, Key(config, kept[i].section)) > config.softLimit
  }

  function Verdict(config: Config, kept: seq<Span>): Outcome {
    var chunks := Drafts(config, kept);
    var tokens := TokenSum(config.count, chunks);
    if chunks == [] then Outcome([], SectionMissing, Some("approved_section_not_found"), 0)
    else if AnyOversized(kept) then Outcome(chunks, ReviewRequired, Some("indivisible_unit_over_target_max"), tokens)
    else if OverSoftLimit(config, kept) then Outcome(chunks, ReviewRequired, Some("soft_chunk_limit_exceeded"), tokens)
    else if tokens > config.tokenLimit
    then Outcome(chunks, ReviewRequired, Some("soft_selected_token_limit_exceeded"), tokens)
    else Outcome(chunks, Indexed, None, tokens)
  }

  function AllCandidates(config: Config, sections: seq<Section>): seq<Span>
    requires config.Accepted()
  {
    Candidates(config, sections, |sections|)
  }

  /** The windows that become chunks of the sections, which are in key order. */
  function KeptSpans(config: Config, sections: seq<Section>): seq<Span>
    requires config.Accepted()
  {
    var candidates := AllCandidates(config, sections);
    Kept(config, candidates, |candidates|)
  }

  function ChunkSorted(config: Config, sections: seq<Section>): Outcome
    requires config.Accepted()
  {
    Verdict(config, KeptSpans(config, sections))
  }

  function FirstProblem(sections: seq<Section>, i: nat): Option<string>
    requires i <= |sections|
    decreases |sections| - i
  {
    if i == |sections| then None
    else if SectionProblem(sections[i]).Some? then SectionProblem(sections[i])
    else FirstProblem(sections, i + 1)
  }

  function ChunkDocument(config: Config, sections: seq<Section>): Result<Outcome, string> {
    if BudgetProblem(config).Some? then Failure(BudgetProblem(config).value)
    else if FirstProblem(sections, 0).Some? then Failure(FirstProblem(sections, 0).value)
    else Success(ChunkSorted(config, Sort(sections, SectionOrder(config))))
  }

  // ----- what holds of the candidate windows -----

  ghost predicate GoodGroup(config: Config, text: string, group: seq<Unit>)
    requires config.Accepted()
  {
    && group != [] && InText(text, group)
    && (CountsBlankAsZero(config.count) ==> WithinBudget(text, group, config.count, config.targetMax))
  }

  /** The group under construction, which ends where the k-th range begins. */
  ghost predicate GoodCurrent(config: Config, text: string, ranges: seq<Range>, k: nat, current: seq<Unit>)
    requires config.Accepted() && k <= |ranges|
  {
    current == []
    || (GoodGroup(config, text, current)
        && current[|current| - 1].end == (if k < |ranges| then ranges[k].start else |text|))
  }

  ghost predicate Reaches(units: seq<Unit>, p: nat) {
    units != [] && units[0].start <= p < units[|units| - 1].end
  }

  lemma {:induction false} JoinGroups(config: Config, text: string, a: seq<Unit>, b: seq<Unit>)
    requires config.Accepted() && GoodGroup(config, text, a) && GoodGroup(config, text, b)
    requires a[|a| - 1].end == b[0].start
    ensures GoodGroup(config, text, a + b)
    ensures forall p | Reaches(a, p) || Reaches(b, p) :: Reaches(a + b, p)
  {
    hide CountsBlankAsZero, Slice;
    var u := a + b;
    forall i, j | 0 <= i < j < |u|
      ensures u[i].end <= u[j].start && (j == i + 1 ==> u[i].end == u[j].start)
    {
      if i < |a| <= j {
        assert i < |a| - 1 ==> a[i].end <= a[|a| - 1].start;
        assert j > |a| ==> b[0].end <= b[j - |a|].start;
      }
    }
    LastAfterFirst(text, a);
    LastAfterFirst(text, b);
  }

  lemma {:induction false} LastAfterFirst(text: string, units: seq<Unit>)
    requires units != [] && InText(text, units)
    ensures units[0].start < units[|units| - 1].end <= |text|
  {}

  lemma {:induction false} RangeUnitsAreGood(config: Config, text: string, ranges: seq<Range>, k: nat)
    requires config.Accepted() && ranges == SemanticRanges(text, config.isBullet) && k < |ranges|
    ensures var units := UnitsOf(config, text, ranges[k]);
            && GoodGroup(config, text, units)
            && units[0].start == ranges[k].start && units[|units| - 1].end == ranges[k].end
    ensures ranges[k].end == if k + 1 < |ranges| then ranges[k + 1].start else |text|
  {
    hide SemanticUnits, SemanticRanges, WithinBudget, ProperRange, CountsBlankAsZero;
    SemanticRangesCoverText(text, config.isBullet);
    RangeSplitsExactly(text, config.isBullet, k, config.count, config.targetMax);
  }

  lemma {:induction false} GrowCurrent(config: Config, text: string, ranges: seq<Range>, k: nat, current: seq<Unit>)
    requires config.Accepted() && ranges == SemanticRanges(text, config.isBullet) && k < |ranges|
    requires GoodCurrent(config, text, ranges, k, current)
    ensures var grown := current + UnitsOf(config, text, ranges[k]);
            && grown != [] && GoodCurrent(config, text, ranges, k + 1, grown)
            && (forall p | Reaches(current, p) :: Reaches(grown, p))
            && (forall p | ranges[k].start <= p < ranges[k].end :: Reaches(grown, p))
  {
    hide SemanticRanges, UnitsOf, InText, WithinBudget;
    RangeUnitsAreGood(config, text, ranges, k);
    var units := UnitsOf(config, text, ranges[k]);
    if current == [] {
      assert current + units == units;
    } else {
      JoinGroups(config, text, current, units);
    }
  }

  lemma {:induction false} GroupsAreGood(config: Config, text: string, ranges: seq<Range>, k: nat, seen: set<string>,
                                         current: seq<Unit>)
    requires config.Accepted() && ranges == SemanticRanges(text, config.isBullet) && k <= |ranges|
    requires GoodCurrent(config, text, ranges, k, current)
    ensures forall g | g in GroupsFrom(config, text, ranges, k, seen, current) :: GoodGroup(config, text, g)
    decreases |ranges| - k
  {
    hide SemanticRanges, UnitsOf, InText, WithinBudget, ParagraphHash;
    if k < |ranges| {
      var h := ParagraphHash(config, text, ranges[k]);
      if h in seen {
        GroupsAreGood(config, text, ranges, k + 1, seen, []);
      } else {
        GrowCurrent(config, text, ranges, k, current);
        GroupsAreGood(config, text, ranges, k + 1, seen + {h}, current + UnitsOf(config, text, ranges[k]));
      }
    }
  }

  lemma {:induction false} CurrentIsCovered(config: Config, text: string, ranges: seq<Range>, k: nat, seen: set<string>,
                                            current: seq<Unit>, p: nat)
    requires config.Accepted() && ranges == SemanticRanges(text, config.isBullet) && k <= |ranges|
    requires GoodCurrent(config, text, ranges, k, current) && Reaches(current, p)
    ensures exists g :: g in GroupsFrom(config, text, ranges, k, seen, current) && Reaches(g, p)
    decreases |ranges| - k
  {
    hide SemanticRanges, UnitsOf, InText, WithinBudget, ParagraphHash, Reaches;
    assert current != [] by { ReachesNonEmpty(current, p); }
    var groups := GroupsFrom(config, text, ranges, k, seen, current);
    if k == |ranges| || ParagraphHash(config, text, ranges[k]) in seen {
      assert groups[0] == current;
    } else {
      var h := ParagraphHash(config, text, ranges[k]);
      GrowCurrent(config, text, ranges, k, current);
      CurrentIsCovered(config, text, ranges, k + 1, seen + {h}, current + UnitsOf(config, text, ranges[k]), p);
    }
  }

  lemma {:induction false} ReachesNonEmpty(units: seq<Unit>, p: nat)
    requires Reaches(units, p)
    ensures units != []
  {}

  /** A paragraph whose hash has not been seen reaches some group, every character of it. */
  lemma {:induction false} ParagraphIsCovered(config: Config, text: string, ranges: seq<Range>, k: nat,
                                              seen: set<string>, current: seq<Unit>, m: nat, p: nat)
    requires config.Accepted() && ranges == SemanticRanges(text, config.isBullet) && k <= m < |ranges|
    requires GoodCurrent(config, text, ranges, k, current)
    requires ParagraphHash(config, text, ranges[m]) !in seen
    requires forall i | k <= i < m :: ParagraphHash(config, text, ranges[i]) != ParagraphHash(config, text, ranges[m])
    requires ranges[m].start <= p < ranges[m].end
    ensures exists g :: g in GroupsFrom(config, text, ranges, k, seen, current) && Reaches(g, p)
    decreases |ranges| - k
  {
    hide SemanticRanges, UnitsOf, InText, WithinBudget, ParagraphHash, Reaches, GoodGroup;
    var h := ParagraphHash(config, text, ranges[k]);
    if h in seen {
      ParagraphIsCovered(config, text, ranges, k + 1, seen, [], m, p);
      var g :| g in GroupsFrom(config, text, ranges, k + 1, seen, []) && Reaches(g, p);
      assert g in GroupsFrom(config, text, ranges, k, seen, current);
    } else {
      GrowCurrent(config, text, ranges, k, current);
      var grown := current + UnitsOf(config, text, ranges[k]);
      if k == m {
        CurrentIsCovered(config, text, ranges, k + 1, seen + {h}, grown, p);
      } else {
        ParagraphIsCovered(config, text, ranges, k + 1, seen + {h}, grown, m, p);
      }
    }
  }

  /** A candidate window lies in its section; unless flagged it is within the target, for a monotone
      counter that ignores blanks. */
  ghost predicate ProperSpan(config: Config, span: Span)
    requires config.Accepted()
  {
    && span.start < span.end <= |span.section.exactText|
    && (Monotone(config.count) && CountsBlankAsZero(config.count) ==>
          span.oversized || config.count(SpanText(span)) <= config.targetMax)
  }

  lemma {:induction false} SpansAt(config: Config, section: Section, sectionType: string, windows: seq<seq<Unit>>,
                                   n: nat)
    requires config.Accepted() && n <= |windows| && NonEmpty(windows)
    ensures var spans := SpansUpTo(config, section, sectionType, windows, n);
            && |spans| == n
            && forall k | 0 <= k < n :: spans[k] == ToSpan(config, section, sectionType, windows[k])
  {
    hide ToSpan;
    if n > 0 {
      SpansAt(config, section, sectionType, windows, n - 1);
    }
  }

  lemma {:induction false} UnitReaching(text: string, units: seq<Unit>, p: nat) returns (q: nat)
    requires InText(text, units) && Reaches(units, p)
    ensures q < |units| && units[q].start <= p < units[q].end
  {
    q := 0;
    while units[q].end <= p
      invariant q < |units| && units[q].start <= p
      decreases |units| - q
    {
      q := q + 1;
    }
  }

  /** The windows of a group reach every character the group reaches, whatever the counter. */
  lemma {:induction false} WindowsReachAll(config: Config, section: Section, sectionType: string, group: seq<Unit>,
                                           p: nat)
    requires config.Accepted() && GoodGroup(config, section.exactText, group) && Reaches(group, p)
    ensures exists span :: span in GroupSpans(config, section, sectionType, group)
                        && span.section == section && span.start <= p < span.end
  {
    hide InText, Chain, WithinBudget, BaseGroups, Flatten, Window;
    var text := section.exactText;
    var q := UnitReaching(text, group, p);
    var groups := BaseGroups(text, group, config.count, config.targetMin, config.targetMax);
    BaseGroupsNonEmpty(text, group, config.count, config.targetMin, config.targetMax);
    BaseGroupsKeepUnits(text, group, config.count, config.targetMin, config.targetMax);
    FlattenAt(groups, q);
    var i, j :| 0 <= i < |groups| && 0 <= j < |groups[i]| && groups[i][j] == group[q];
    WindowsNonEmpty(text, group, config.count, config.targetMin, config.targetMax, config.overlap);
    WindowsAt(text, groups, |groups|, config.count, config.targetMax, config.overlap);
    WindowReach(text, groups, i, config.count, config.targetMax, config.overlap);
    GroupInText(text, groups, i);
    ChainOrder(text, groups[i], j);
    var windows := BoundedUnitGroups(text, group, config.count, config.targetMin, config.targetMax, config.overlap);
    SpansAt(config, section, sectionType, windows, |windows|);
    var spans := GroupSpans(config, section, sectionType, group);
    assert spans[i] == ToSpan(config, section, sectionType, windows[i]);
  }

  lemma {:induction false} ChainOrder(text: string, units: seq<Unit>, j: nat)
    requires InText(text, units) && j < |units|
    ensures units[0].start <= units[j].start
    ensures units[j].end <= units[|units| - 1].end <= |text|
  {}

  lemma {:induction false} WindowIsProper(config: Config, section: Section, sectionType: string, group: seq<Unit>,
                                          i: nat)
    requires config.Accepted() && GoodGroup(config, section.exactText, group)
    requires i < |GroupSpans(config, section, sectionType, group)|
    ensures var span := GroupSpans(config, section, sectionType, group)[i];
            ProperSpan(config, span) && span.section == section
  {
    hide InText, Chain, BaseGroups, Flatten, OverlapOf, Monotone, CountsBlankAsZero, Advances, LongestOverlap;
    var text := section.exactText;
    var groups := BaseGroups(text, group, config.count, config.targetMin, config.targetMax);
    BaseGroupsNonEmpty(text, group, config.count, config.targetMin, config.targetMax);
    BaseGroupsKeepUnits(text, group, config.count, config.targetMin, config.targetMax);
    WindowsNonEmpty(text, group, config.count, config.targetMin, config.targetMax, config.overlap);
    WindowsAt(text, groups, |groups|, config.count, config.targetMax, config.overlap);
    var windows := BoundedUnitGroups(text, group, config.count, config.targetMin, config.targetMax, config.overlap);
    SpansAt(config, section, sectionType, windows, |windows|);
    var span := GroupSpans(config, section, sectionType, group)[i];
    var window := windows[i];
    assert span == ToSpan(config, section, sectionType, window);
    WindowReach(text, groups, i, config.count, config.targetMax, config.overlap);
    GroupInText(text, groups, i);
    ChainOrder(text, groups[i], 0);
    LastAfterFirst(text, groups[i]);
    if Monotone(config.count) && CountsBlankAsZero(config.count) {
      OverlapWindows(text, group, config.count, config.targetMin, config.targetMax, config.overlap);
      if |window| == 1 && config.count(SpanText(span)) > config.targetMax {
        assert window == [window[0]];
        var a, b :| 0 <= a < |groups| && 0 <= b < |groups[a]| && groups[a][b] == window[0];
        GroupInText(text, groups, a);
        assert groups[a][b] in groups[a];
        var q :| 0 <= q < |group| && group[q] == window[0];
        assert group[q].indivisible;
        assert span.oversized;
      }
    }
  }

  // ----- what holds of the emitted chunks -----

  lemma {:induction false} AllSpansAt(config: Config, section: Section, sectionType: string, groups: seq<seq<Unit>>,
                                      n: nat)
    requires config.Accepted() && n <= |groups|
    ensures forall k, span | 0 <= k < n && span in GroupSpans(config, section, sectionType, groups[k]) ::
              span in AllGroupSpans(config, section, sectionType, groups, n)
    ensures forall span | span in AllGroupSpans(config, section, sectionType, groups, n) ::
              exists k :: 0 <= k < n && span in GroupSpans(config, section, sectionType, groups[k])
  {
    hide GroupSpans;
    if n > 0 {
      AllSpansAt(config, section, sectionType, groups, n - 1);
    }
  }

  lemma {:induction false} SectionSpansAreProper(config: Config, section: Section, sectionType: string,
                                                 seen: set<string>)
    requires config.Accepted()
    ensures forall span | span in SectionSpans(config, section, sectionType, seen) ::
              ProperSpan(config, span) && span.section == section
  {
    hide GroupSpans, ProperSpan, GoodGroup, SemanticRanges, GroupsFrom;
    var ranges := SemanticRanges(section.exactText, config.isBullet);
    GroupsAreGood(config, section.exactText, ranges, 0, seen, []);
    var groups := SectionGroups(config, section, seen);
    AllSpansAt(config, section, sectionType, groups, |groups|);
    forall span | span in SectionSpans(config, section, sectionType, seen)
      ensures ProperSpan(config, span) && span.section == section
    {
      var k :| 0 <= k < |groups| && span in GroupSpans(config, section, sectionType, groups[k]);
      var i :| 0 <= i < |GroupSpans(config, section, sectionType, groups[k])|
            && GroupSpans(config, section, sectionType, groups[k])[i] == span;
      assert groups[k] in groups;
      WindowIsProper(config, section, sectionType, groups[k], i);
    }
  }

  /** The m-th paragraph of a section is new: neither `seen` nor an earlier paragraph of it has its hash. */
  ghost predicate FirstSeen(config: Config, section: Section, seen: set<string>, m: nat) {
    var ranges := SemanticRanges(section.exactText, config.isBullet);
    && m < |ranges|
    && ParagraphHash(config, section.exactText, ranges[m]) !in seen + HashesUpTo(config, section.exactText, ranges, m)
  }

  lemma {:induction false} SectionSpansCover(config: Config, section: Section, sectionType: string, seen: set<string>,
                                             m: nat, p: nat)
    requires config.Accepted() && FirstSeen(config, section, seen, m)
    requires var r := SemanticRanges(section.exactText, config.isBullet)[m]; r.start <= p < r.end
    ensures exists span :: span in SectionSpans(config, section, sectionType, seen)
                        && span.section == section && span.start <= p < span.end
  {
    hide GroupSpans, GoodGroup, SemanticRanges, GroupsFrom, ParagraphHash, Reaches;
    var ranges := SemanticRanges(section.exactText, config.isBullet);
    assert forall i | 0 <= i < m ::
        ParagraphHash(config, section.exactText, ranges[i]) in HashesUpTo(config, section.exactText, ranges, m);
    ParagraphIsCovered(config, section.exactText, ranges, 0, seen, [], m, p);
    GroupsAreGood(config, section.exactText, ranges, 0, seen, []);
    var groups := SectionGroups(config, section, seen);
    AllSpansAt(config, section, sectionType, groups, |groups|);
    var g :| g in groups && Reaches(g, p);
    WindowsReachAll(config, section, sectionType, g, p);
    var k :| 0 <= k < |groups| && groups[k] == g;
    var span :| span in GroupSpans(config, section, sectionType, g) && span.section == section
        && span.start <= p < span.end;
    assert span in SectionSpans(config, section, sectionType, seen);
  }

  lemma {:induction false} CandidatesAreProper(config: Config, sections: seq<Section>, i: nat)
    requires config.Accepted() && i <= |sections|
    ensures forall span | span in Candidates(config, sections, i) ::
              ProperSpan(config, span) && span.section in sections
  {
    hide ProperSpan, SectionSpans, SeenBefore, Approved;
    if i > 0 {
      CandidatesAreProper(config, sections, i - 1);
      if Approved(config, sections[i - 1]) {
        assert config.classify(sections[i - 1]).Some? by { ApprovedHasType(config, sections[i - 1]); }
        SectionSpansAreProper(config, sections[i - 1], config.classify(sections[i - 1]).value,
                              SeenBefore(config, sections, i - 1));
      }
    }
  }

  lemma {:induction false} ApprovedHasType(config: Config, section: Section)
    requires Approved(config, section)
    ensures config.classify(section).Some?
  {}

  lemma {:induction false} CandidatesInclude(config: Config, sections: seq<Section>, s: nat, i: nat)
    requires config.Accepted() && s < i <= |sections| && Approved(config, sections[s])
    ensures forall span | span in SectionSpans(config, sections[s], config.classify(sections[s]).value,
                                               SeenBefore(config, sections, s)) ::
              span in Candidates(config, sections, i)
    decreases i
  {
    hide SectionSpans, SeenBefore;
    if s < i - 1 {
      CandidatesInclude(config, sections, s, i - 1);
    }
  }

  /** Every candidate text is kept once, and nothing else is kept. */
  lemma {:induction false} KeptAt(config: Config, candidates: seq<Span>, k: nat)
    requires k <= |candidates|
    ensures var kept := Kept(config, candidates, k);
            && (forall j | 0 <= j < k :: config.hash(SpanText(candidates[j])) in KeptHashes(config, kept))
            && (forall i | 0 <= i < |kept| :: kept[i] in candidates)
            && (forall i, j | 0 <= i < j < |kept| :: config.hash(SpanText(kept[i])) != config.hash(SpanText(kept[j])))
    decreases k
  {
    hide SpanText;
    if k > 0 {
      KeptAt(config, candidates, k - 1);
      var before, kept := Kept(config, candidates, k - 1), Kept(config, candidates, k);
      assert before <= kept;
      forall h | h in KeptHashes(config, before) ensures h in KeptHashes(config, kept) {
        var i :| 0 <= i < |before| && h == config.hash(SpanText(before[i]));
        assert kept[i] == before[i];
      }
      if kept != before {
        assert kept[|kept| - 1] == candidates[k - 1];
        assert config.hash(SpanText(kept[|kept| - 1])) in KeptHashes(config, kept);
      }
    }
  }

  ghost predicate Injective(hash: string -> string) {
    forall a, b | hash(a) == hash(b) :: a == b
  }

  /** A chunk is exactly the text of its section at its own offsets. */
  ghost predicate AtItsOffsets(chunk: Chunk) {
    var from, to := chunk.characterStart - chunk.section.characterStart,
        chunk.characterEnd - chunk.section.characterStart;
    0 <= from < to <= |chunk.section.exactText| && chunk.exactText == chunk.section.exactText[from..to]
  }

  /** The kept windows are proper candidates with pairwise distinct content hashes, and every candidate's
      content hash is among theirs. */
  lemma {:induction false} KeptSpansAreProper(config: Config, sections: seq<Section>)
    requires config.Accepted()
    ensures var kept := KeptSpans(config, sections);
            && (forall i | 0 <= i < |kept| :: ProperSpan(config, kept[i]) && kept[i].section in sections)
            && (forall i, j | 0 <= i < j < |kept| :: config.hash(SpanText(kept[i])) != config.hash(SpanText(kept[j])))
            && (forall span | span in AllCandidates(config, sections) ::
                  config.hash(SpanText(span)) in KeptHashes(config, kept))
  {
    hide ProperSpan, SpanText;
    var candidates := AllCandidates(config, sections);
    KeptAt(config, candidates, |candidates|);
    CandidatesAreProper(config, sections, |sections|);
    var kept := KeptSpans(config, sections);
    forall i | 0 <= i < |kept| ensures ProperSpan(config, kept[i]) && kept[i].section in sections {
      assert kept[i] in candidates;
    }
  }

  lemma {:induction false} ChunksAreDrafts(config: Config, sections: seq<Section>)
    requires config.Accepted()
    ensures ChunkSorted(config, sections).chunks == Drafts(config, KeptSpans(config, sections))
  {
    hide Drafts, TokenSum, AnyOversized, OverSoftLimit, KeptSpans;
  }

  lemma {:induction false} DraftAtItsOffsets(config: Config, span: Span, ordinal: nat)
    requires config.Accepted() && ProperSpan(config, span)
    ensures AtItsOffsets(Draft(config, span, ordinal))
  {
    ProperSpanText(config, span);
    hide ProperSpan, SpanText;
  }

  /** Ordinals count from one, texts are pairwise distinct, and every chunk is the text at its offsets. */
  lemma {:induction false} ChunksAreNumberedAndDistinct(config: Config, sections: seq<Section>)
    requires config.Accepted()
    ensures var chunks := ChunkSorted(config, sections).chunks;
            && (forall i | 0 <= i < |chunks| ::
                  chunks[i].ordinal == i + 1 && AtItsOffsets(chunks[i]) && chunks[i].section in sections)
            && (forall i, j | 0 <= i < j < |chunks| :: chunks[i].exactText != chunks[j].exactText)
  {
    ChunksAreDrafts(config, sections);
    KeptSpansAreProper(config, sections);
    hide KeptSpans, ProperSpan, ChunkSorted, SpanText, AtItsOffsets, KeptHashes, AllCandidates;
    DraftsAreNumberedAndDistinct(config, sections, KeptSpans(config, sections));
  }

  lemma {:induction false} DraftsAreNumberedAndDistinct(config: Config, sections: seq<Section>, kept: seq<Span>)
    requires config.Accepted()
    requires forall i | 0 <= i < |kept| :: ProperSpan(config, kept[i]) && kept[i].section in sections
    requires forall i, j | 0 <= i < j < |kept| :: config.hash(SpanText(kept[i])) != config.hash(SpanText(kept[j]))
    ensures var chunks := Drafts(config, kept);
            && (forall i | 0 <= i < |chunks| ::
                  chunks[i].ordinal == i + 1 && AtItsOffsets(chunks[i]) && chunks[i].section in sections)
            && (forall i, j | 0 <= i < j < |chunks| :: chunks[i].exactText != chunks[j].exactText)
  {
    hide ProperSpan, SpanText, AtItsOffsets;
    var chunks := Drafts(config, kept);
    forall i | 0 <= i < |chunks|
      ensures chunks[i].ordinal == i + 1 && AtItsOffsets(chunks[i]) && chunks[i].section in sections
    {
      DraftAtItsOffsets(config, kept[i], i + 1);
    }
    forall i, j | 0 <= i < j < |chunks| ensures chunks[i].exactText != chunks[j].exactText {
      assert chunks[i] == Draft(config, kept[i], i + 1) && chunks[j] == Draft(config, kept[j], j + 1);
    }
  }

  lemma {:induction false} ProperSpanText(config: Config, span: Span)
    requires config.Accepted() && ProperSpan(config, span)
    ensures span.start < span.end <= |span.section.exactText|
    ensures SpanText(span) == span.section.exactText[span.start..span.end]
  {}

  /** With an injective hash every candidate's text is the text of some chunk. */
  lemma {:induction false} CandidateHasChunk(config: Config, sections: seq<Section>, span: Span)
    requires config.Accepted() && Injective(config.hash) && span in AllCandidates(config, sections)
    ensures exists i :: 0 <= i < |ChunkSorted(config, sections).chunks|
                        && ChunkSorted(config, sections).chunks[i].exactText == SpanText(span)
  {
    KeptSpansAreProper(config, sections);
    ChunksAreDrafts(config, sections);
    hide AllCandidates, KeptSpans, ChunkSorted, SpanText, ProperSpan;
    var kept, chunks := KeptSpans(config, sections), ChunkSorted(config, sections).chunks;
    assert config.hash(SpanText(span)) in KeptHashes(config, kept);
    var i :| 0 <= i < |kept| && config.hash(SpanText(kept[i])) == config.hash(SpanText(span));
    assert chunks[i] == Draft(config, kept[i], i + 1);
  }

  /** Every character of a first-seen paragraph lies in a candidate window of its section. */
  lemma {:induction false} ParagraphInCandidate(config: Config, sections: seq<Section>, s: nat, m: nat, p: nat)
      returns (span: Span)
    requires config.Accepted()
    requires s < |sections| && Approved(config, sections[s])
    requires FirstSeen(config, sections[s], SeenBefore(config, sections, s), m)
    requires var r := SemanticRanges(sections[s].exactText, config.isBullet)[m]; r.start <= p < r.end
    ensures span in AllCandidates(config, sections) && span.section == sections[s] && span.start <= p < span.end
  {
    hide SectionSpans, FirstSeen, SemanticRanges, SpanText, Approved;
    ApprovedHasType(config, sections[s]);
    var sectionType := config.classify(sections[s]).value;
    var seen := SeenBefore(config, sections, s);
    SectionSpansCover(config, sections[s], sectionType, seen, m, p);
    span :| span in SectionSpans(config, sections[s], sectionType, seen)
            && span.section == sections[s] && span.start <= p < span.end;
    CandidatesInclude(config, sections, s, |sections|);
  }

  /** With an injective hash no character of a first-seen paragraph of an approved section is lost: it
      lies in a window of that section whose text is the text of an emitted chunk. */
  lemma {:induction false} ParagraphsReachChunks(config: Config, sections: seq<Section>, s: nat, m: nat, p: nat)
    requires config.Accepted() && Injective(config.hash)
    requires s < |sections| && Approved(config, sections[s])
    requires FirstSeen(config, sections[s], SeenBefore(config, sections, s), m)
    requires var r := SemanticRanges(sections[s].exactText, config.isBullet)[m]; r.start <= p < r.end
    ensures exists span, i :: span in AllCandidates(config, sections)
                        && span.section == sections[s] && span.start <= p < span.end
                        && 0 <= i < |ChunkSorted(config, sections).chunks|
                        && ChunkSorted(config, sections).chunks[i].exactText == SpanText(span)
  {
    hide FirstSeen, SemanticRanges, Approved, AllCandidates, ChunkSorted, SpanText;
    var span := ParagraphInCandidate(config, sections, s, m, p);
    CandidateHasChunk(config, sections, span);
  }

  /** An INDEXED verdict means every limit holds: each chunk is within the target (for a monotone counter
      that ignores blanks), as are the number of chunks, in all and per sort key, and their tokens. */
  lemma {:induction false} IndexedMeansWithinLimits(config: Config, sections: seq<Section>)
    requires config.Accepted()
    ensures var outcome := ChunkSorted(config, sections);
            var kept := KeptSpans(config, sections);
            outcome.status.Indexed? ==>
              && 0 < |outcome.chunks| <= config.softLimit
              && (forall i | 0 <= i < |kept| ::
                  CountOfKey(config, kept, Key(config, kept[i].section)) <= config.softLimit)
              && TokenSum(config.count, outcome.chunks) <= config.tokenLimit
              && (Monotone(config.count) && CountsBlankAsZero(config.count) ==>
                    forall i | 0 <= i < |outcome.chunks| ::
                        config.count(outcome.chunks[i].exactText) <= config.targetMax)
  {
    hide KeptSpans, Monotone, CountsBlankAsZero, Key;
    KeptSpansAreProper(config, sections);
  }

  lemma {:induction false} KeyOrderSorts(config: Config)
    requires TotalPreorder(config.keyOrder)
    ensures TotalPreorder(SectionOrder(config))
  {
    hide Key;
    var before := SectionOrder(config);
    forall x, y ensures before(x, y) || before(y, x) {
      assert config.keyOrder(Key(config, x), Key(config, y)) || config.keyOrder(Key(config, y), Key(config, x));
    }
    forall x, y, z | before(x, y) && before(y, z) ensures before(x, z) {
      assert config.keyOrder(Key(config, x), Key(config, y)) && config.keyOrder(Key(config, y), Key(config, z));
    }
  }

  /** Sections whose sort keys are pairwise distinct may come in any order: the outcome is the same, and
      the call is rejected for one order exactly when it is rejected for the other. */
  lemma {:induction false} SectionOrderDoesNotMatter(config: Config, a: seq<Section>, b: seq<Section>)
    requires TotalPreorder(config.keyOrder)
    requires forall k, l: SectionKey | config.keyOrder(k, l) && config.keyOrder(l, k) :: k == l
    requires multiset(a) == multiset(b)
    requires forall x, y | x in a && y in a && Key(config, x) == Key(config, y) :: x == y
    ensures ChunkDocument(config, a) == ChunkDocument(config, b)
         || (ChunkDocument(config, a).Failure? && ChunkDocument(config, b).Failure?)
  {
    hide Key, ChunkSorted, SectionProblem, BudgetProblem;
    KeyOrderSorts(config);
    SortIgnoresOrder(a, b, SectionOrder(config));
    SameMembers(a, b);
    NoProblem(a, 0);
    NoProblem(b, 0);
    assert forall k | 0 <= k < |a| :: a[k] in b;
    assert forall k | 0 <= k < |b| :: b[k] in a;
  }

  /** The first problem is absent exactly when no section has one. */
  lemma {:induction false} NoProblem(sections: seq<Section>, i: nat)
    requires i <= |sections|
    ensures FirstProblem(sections, i).None? <==> forall k | i <= k < |sections| :: SectionProblem(sections[k]).None?
    decreases |sections| - i
  {
    hide SectionProblem;
    if i < |sections| {
      NoProblem(sections, i + 1);
    }
  }

  // ----- the loops -----

  method SectionCandidates(config: Config, section: Section, sectionType: string, seenBefore: set<string>)
    returns (candidates: seq<Span>, seen: set<string>)
    requires config.Accepted()
    ensures candidates == SectionSpans(config, section, sectionType, seenBefore)
    ensures seen == seenBefore + SectionHashes(config, section)
  {
    hide SectionGroups, SectionHashes, BoundedUnitGroups, ToSpan;
    var groups: seq<seq<Unit>>;
    groups, seen := SectionUnitGroups(config, section, seenBefore);
    candidates := [];
    for i := 0 to |groups|
      invariant candidates == AllGroupSpans(config, section, sectionType, groups, i)
    {
      var windows := BoundUnits(section.exactText, groups[i], config.count, config.targetMin, config.targetMax,
                                config.overlap);
      WindowsNonEmpty(section.exactText, groups[i], config.count, config.targetMin, config.targetMax, config.overlap);
      for k := 0 to |windows|
        invariant candidates == AllGroupSpans(config, section, sectionType, groups, i)
                              + SpansUpTo(config, section, sectionType, windows, k)
      {
        candidates := candidates + [ToSpan(config, section, sectionType, windows[k])];
      }
    }
  }

  lemma {:induction false} RangeInText(text: string, isBullet: string -> bool, k: nat)
    requires k < |SemanticRanges(text, isBullet)|
    ensures var r := SemanticRanges(text, isBullet)[k]; r.start <= r.end <= |text|
  {
    SemanticRangesCoverText(text, isBullet);
    assert ProperRange(text, SemanticRanges(text, isBullet)[k], isBullet);
  }

  lemma {:induction false} HashesGrow(config: Config, text: string, ranges: seq<Range>, k: nat)
    requires k < |ranges|
    ensures HashesUpTo(config, text, ranges, k + 1)
         == HashesUpTo(config, text, ranges, k) + {ParagraphHash(config, text, ranges[k])}
  {
    hide ParagraphHash;
  }

  method SectionUnitGroups(config: Config, section: Section, seenBefore: set<string>)
    returns (groups: seq<seq<Unit>>, seen: set<string>)
    requires config.Accepted()
    ensures groups == SectionGroups(config, section, seenBefore)
    ensures seen == seenBefore + SectionHashes(config, section)
  {
    hide ParagraphHash, SemanticUnits, SemanticRanges, HashesUpTo;
    var text := section.exactText;
    var ranges := ScanSemanticRanges(text, config.isBullet);
    groups, seen := [], seenBefore;
    assert HashesUpTo(config, text, ranges, 0) == {} by { NoHashes(config, text, ranges); }
    var current: seq<Unit> := [];
    var k := 0;
    while k < |ranges|
      invariant 0 <= k <= |ranges|
      invariant seen == seenBefore + HashesUpTo(config, text, ranges, k)
      invariant groups + GroupsFrom(config, text, ranges, k, seen, current) ==
                  GroupsFrom(config, text, ranges, 0, seenBefore, [])
    {
      var r := ranges[k];
      var h := ParagraphHash(config, text, r);
      HashesGrow(config, text, ranges, k);
      if h in seen {
        if current != [] {
          ghost var later := GroupsFrom(config, text, ranges, k + 1, seen, []);
          Assoc(groups, [current], later);
          groups := groups + [current];
          current := [];
        }
      } else {
        seen := seen + {h};
        RangeInText(text, config.isBullet, k);
        var units := SplitSemanticUnit(text, r.start, r.end, r.bullet, config.count, config.targetMax);
        current := current + units;
      }
      k := k + 1;
    }
    if current != [] {
      groups := groups + [current];
    }
  }

  lemma {:induction false} NoHashes(config: Config, text: string, ranges: seq<Range>)
    ensures HashesUpTo(config, text, ranges, 0) == {}
  {}

  method RemoveDuplicates(config: Config, candidates: seq<Span>)
    returns (kept: seq<Span>, counts: map<SectionKey, nat>, oversized: bool)
    ensures kept == Kept(config, candidates, |candidates|)
    ensures oversized == AnyOversized(kept)
    ensures forall key: SectionKey :: CountOfKey(config, kept, key) == if key in counts then counts[key] else 0
    ensures forall key | key in counts :: HasKey(config, kept, key)
  {
    hide Key, SpanText, HasKey, AnyOversized, KeptHashes;
    kept, counts, oversized := [], map[], false;
    NothingKept(config);
    var seenHashes: set<string> := {};
    for k := 0 to |candidates|
      invariant kept == Kept(config, candidates, k)
      invariant seenHashes == KeptHashes(config, kept)
      invariant oversized == AnyOversized(kept)
      invariant forall key: SectionKey :: CountOfKey(config, kept, key) == if key in counts then counts[key] else 0
      invariant forall key | key in counts :: HasKey(config, kept, key)
    {
      var candidate := candidates[k];
      var h := config.hash(SpanText(candidate));
      if h !in seenHashes {
        ghost var before := kept;
        seenHashes := seenHashes + {h};
        var key := Key(config, candidate.section);
        counts := counts[key := (if key in counts then counts[key] else 0) + 1];
        oversized := oversized || candidate.oversized;
        kept := kept + [candidate];
        KeptGrows(config, before, candidate);
      }
    }
  }

  /** Some kept window comes from a section with the key. */
  ghost predicate HasKey(config: Config, kept: seq<Span>, key: SectionKey) {
    exists i :: 0 <= i < |kept| && Key(config, kept[i].section) == key
  }

  lemma {:induction false} NothingKept(config: Config)
    ensures KeptHashes(config, []) == {} && !AnyOversized([])
  {}

  lemma {:induction false} KeptGrows(config: Config, before: seq<Span>, candidate: Span)
    ensures KeptHashes(config, before + [candidate]) == KeptHashes(config, before) + {config.hash(SpanText(candidate))}
    ensures AnyOversized(before + [candidate]) <==> AnyOversized(before) || candidate.oversized
    ensures forall key ::
              HasKey(config, before + [candidate], key) <==>
              HasKey(config, before, key) || key == Key(config, candidate.section)
    ensures forall key :: CountOfKey(config, before + [candidate], key)
                       == CountOfKey(config, before, key) + (if Key(config, candidate.section) == key then 1 else 0)
  {
    hide Key, SpanText;
    var all := before + [candidate];
    assert all[..|all| - 1] == before;
    assert forall i | 0 <= i < |before| :: all[i] == before[i];
    assert all[|before|] == candidate;
    forall h ensures h in KeptHashes(config, all) <==>
        h in KeptHashes(config, before) + {config.hash(SpanText(candidate))} {
      if h in KeptHashes(config, before) {
        var i :| 0 <= i < |before| && h == config.hash(SpanText(before[i]));
        assert all[i] == before[i];
      }
    }
    if AnyOversized(before) {
      var i :| 0 <= i < |before| && before[i].oversized;
      assert all[i].oversized;
    }
  }

  method ChunkDocumentSections(config: Config, sections: seq<Section>) returns (r: Result<Outcome, string>)
    ensures r == ChunkDocument(config, sections)
  {
    if BudgetProblem(config).Some? {
      return Failure(BudgetProblem(config).value);
    }
    var i := 0;
    while i < |sections|
      invariant 0 <= i <= |sections|
      invariant FirstProblem(sections, i) == FirstProblem(sections, 0)
    {
      if SectionProblem(sections[i]).Some? {
        return Failure(SectionProblem(sections[i]).value);
      }
      i := i + 1;
    }
    var outcome := AssembleChunks(config, Sort(sections, SectionOrder(config)));
    r := Success(outcome);
  }

  method AssembleChunks(config: Config, sorted: seq<Section>) returns (outcome: Outcome)
    requires config.Accepted()
    ensures outcome == ChunkSorted(config, sorted)
  {
    hide SectionSpans, SectionHashes;
    var candidates: seq<Span>, seen: set<string> := [], {};
    for i := 0 to |sorted|
      invariant candidates == Candidates(config, sorted, i) && seen == SeenBefore(config, sorted, i)
    {
      if Approved(config, sorted[i]) {
        var spans;
        spans, seen := SectionCandidates(config, sorted[i], config.classify(sorted[i]).value, seen);
        candidates := candidates + spans;
      }
    }
    var kept, counts, oversized := RemoveDuplicates(config, candidates);
    outcome := Conclude(config, kept, counts, oversized);
  }

  method DraftAll(config: Config, kept: seq<Span>) returns (chunks: seq<Chunk>, tokens: nat)
    ensures chunks == Drafts(config, kept) && tokens == TokenSum(config.count, chunks)
  {
    hide Draft;
    chunks, tokens := [], 0;
    for i := 0 to |kept|
      invariant chunks == Drafts(config, kept[..i]) && tokens == TokenSum(config.count, chunks)
    {
      assert kept[..i + 1][..i] == kept[..i];
      var chunk := Draft(config, kept[i], |chunks| + 1);
      assert (chunks + [chunk])[..i] == chunks;
      chunks := chunks + [chunk];
      tokens := tokens + config.count(chunk.exactText);
    }
    assert kept[..|kept|] == kept;
  }

  /** The dictionary of counts exceeds the limit for some key exactly when the kept windows do. */
  lemma {:induction false} CountsDecide(config: Config, kept: seq<Span>, counts: map<SectionKey, nat>)
    requires forall key: SectionKey :: CountOfKey(config, kept, key) == if key in counts then counts[key] else 0
    requires forall key | key in counts :: exists i :: 0 <= i < |kept| && Key(config, kept[i].section) == key
    ensures OverSoftLimit(config, kept)
       <==> |kept| > config.softLimit || exists key | key in counts :: counts[key] > config.softLimit
  {
    hide Key;
    if exists key | key in counts :: counts[key] > config.softLimit {
      var key :| key in counts && counts[key] > config.softLimit;
      var i :| 0 <= i < |kept| && Key(config, kept[i].section) == key;
      assert CountOfKey(config, kept, Key(config, kept[i].section)) > config.softLimit;
    }
    if i :| 0 <= i < |kept| && CountOfKey(config, kept, Key(config, kept[i].section)) > config.softLimit {
      var key := Key(config, kept[i].section);
      assert key in counts || config.softLimit < 0;
      CountPositive(config, kept, i);
    }
  }

  lemma {:induction false} CountPositive(config: Config, kept: seq<Span>, i: nat)
    requires i < |kept|
    ensures CountOfKey(config, kept, Key(config, kept[i].section)) > 0
  {
    hide Key;
    if i < |kept| - 1 {
      CountPositive(config, kept[..|kept| - 1], i);
    }
  }

  method Conclude(config: Config, kept: seq<Span>, counts: map<SectionKey, nat>, oversized: bool)
      returns (outcome: Outcome)
    requires oversized == AnyOversized(kept)
    requires forall key: SectionKey :: CountOfKey(config, kept, key) == if key in counts then counts[key] else 0
    requires forall key | key in counts :: exists i :: 0 <= i < |kept| && Key(config, kept[i].section) == key
    ensures outcome == Verdict(config, kept)
  {
    hide Key, AnyOversized, OverSoftLimit;
    var chunks, tokens := DraftAll(config, kept);
    CountsDecide(config, kept, counts);
    if chunks == [] {
      outcome := Outcome([], SectionMissing, Some("approved_section_not_found"), 0);
    } else if oversized {
      outcome := Outcome(chunks, ReviewRequired, Some("indivisible_unit_over_target_max"), tokens);
    } else if |chunks| > config.softLimit || exists key | key in counts :: counts[key] > config.softLimit {
      outcome := Outcome(chunks, ReviewRequired, Some("soft_chunk_limit_exceeded"), tokens);
    } else if tokens > config.tokenLimit {
      outcome := Outcome(chunks, ReviewRequired, Some("soft_selected_token_limit_exceeded"), tokens);
    } else {
      outcome := Outcome(chunks, Indexed, None, tokens);
    }
  }
}
