/** Canonical text of a paged document, its line spans, and the sections cut out of it. */
module Extraction {
  import opened Wrappers
  import opened Sequences
  import opened Sorting
  import Text
  import Chunking

  type Section = Chunking.Section

  datatype LineSpan = LineSpan(page: nat, text: string, start: nat, end: nat)

  /** One page: its text items in reading order, and its table rows as their nonblank cells. Page k of a
      document has number k + 1. */
  datatype Page = Page(items: seq<string>, rows: seq<seq<string>>)

  /** The heading vocabulary, which the model does not look into. */
  datatype Headings = Headings(
    normalizeClaim: string -> string,
    normalize: string -> string,
    isPart: string -> bool,
    isSummary: string -> bool,
    isBoundary: string -> bool,
    isClaim: string -> bool,
    isOutline: string -> bool,
    isRisk: string -> bool,
    isTableHeader: string -> bool,
    isNumber: string -> bool,
    mentionsRisk: string -> bool,
    contentsPages: set<nat>)

  // ----- canonical text -----

  /** Newline, form feed, newline. */
  const PAGE_BREAK: string := "\n\U{000C}\n"

  function JoinItems(items: seq<string>): string {
    if items == [] then ""
    else if |items| == 1 then items[0]
    else JoinItems(items[..|items| - 1]) + "\n" + items[|items| - 1]
  }

  function JoinPages(pages: seq<Page>): string {
    if pages == [] then ""
    else if |pages| == 1 then JoinItems(pages[0].items)
    else JoinPages(pages[..|pages| - 1]) + PAGE_BREAK + JoinItems(pages[|pages| - 1].items)
  }

  /** Every item of pages[..k], in order, with its page number. */
  function ItemsOf(pages: seq<Page>, k: nat): seq<(nat, string)>
    requires k <= |pages|
  {
    if k == 0 then [] else ItemsOf(pages, k - 1) + PageItems(pages[k - 1].items, k, |pages[k - 1].items|)
  }

  function PageItems(items: seq<string>, page: nat, n: nat): seq<(nat, string)>
    requires n <= |items|
  {
    if n == 0 then [] else PageItems(items, page, n - 1) + [(page, items[n - 1])]
  }

  /** A span is the text at its own offsets. */
  ghost predicate Located(text: string, span: LineSpan) {
    span.start <= span.end <= |text| && text[span.start..span.end] == span.text && 1 <= span.page
  }

  /** Spans are located in the text, follow one another, and their pages do not go back. */
  ghost predicate GoodSpans(text: string, spans: seq<LineSpan>) {
    && (forall i | 0 <= i < |spans| :: Located(text, spans[i]))
    && (forall i, j | 0 <= i < j < |spans| :: spans[i].end <= spans[j].start && spans[i].page <= spans[j].page)
  }

  ghost predicate ShowItems(spans: seq<LineSpan>, items: seq<(nat, string)>) {
    && |spans| == |items|
    && forall i | 0 <= i < |spans| :: spans[i].page == items[i].0 && spans[i].text == items[i].1
  }

  lemma {:induction false} SpansExtend(text: string, spans: seq<LineSpan>, more: string)
    requires GoodSpans(text, spans)
    ensures GoodSpans(text + more, spans)
  {
    forall i | 0 <= i < |spans| ensures Located(text + more, spans[i]) {
      var s := spans[i];
      assert Located(text, s);
      assert (text + more)[s.start..s.end] == text[s.start..s.end];
    }
  }

  lemma {:induction false} SpansAppend(text: string, spans: seq<LineSpan>, page: nat, item: string)
    requires GoodSpans(text, spans) && 1 <= page && forall i | 0 <= i < |spans| :: spans[i].page <= page
    ensures GoodSpans(text + item, spans + [LineSpan(page, item, |text|, |text + item|)])
  {
    SpansExtend(text, spans, item);
    forall i | 0 <= i < |spans| ensures spans[i].end <= |text| {
      assert Located(text, spans[i]);
    }
    assert Located(text + item, LineSpan(page, item, |text|, |text + item|));
  }

  /** The pages joined by page breaks, with one located span for every item, in order, on its own page. */
  ghost predicate IsCanonical(pages: seq<Page>, text: string, spans: seq<LineSpan>) {
    text == JoinPages(pages) && GoodSpans(text, spans) && ShowItems(spans, ItemsOf(pages, |pages|))
  }

  method CanonicalText(pages: seq<Page>) returns (text: string, spans: seq<LineSpan>)
    ensures IsCanonical(pages, text, spans)
  {
    text, spans := "", [];
    var k := 0;
    while k < |pages|
      invariant 0 <= k <= |pages|
      invariant text == JoinPages(pages[..k])
      invariant GoodSpans(text, spans) && ShowItems(spans, ItemsOf(pages, k))
      invariant forall i | 0 <= i < |spans| :: spans[i].page <= k
    {
      assert pages[..k + 1][..k] == pages[..k];
      if k > 0 {
        SpansExtend(text, spans, PAGE_BREAK);
        text := text + PAGE_BREAK;
      }
      ghost var before := text;
      text, spans := AddItems(text, spans, pages[k].items, k + 1);
      assert k == 0 ==> before == "" && "" + JoinItems(pages[k].items) == JoinItems(pages[k].items);
      k := k + 1;
    }
    assert pages[..k] == pages;
  }

  method AddItems(before: string, earlier: seq<LineSpan>, items: seq<string>, page: nat)
    returns (text: string, spans: seq<LineSpan>)
    requires 1 <= page && GoodSpans(before, earlier) && forall i | 0 <= i < |earlier| :: earlier[i].page <= page
    ensures text == before + JoinItems(items)
    ensures GoodSpans(text, spans) && forall i | 0 <= i < |spans| :: spans[i].page <= page
    ensures forall known | ShowItems(earlier, known) :: ShowItems(spans, known + PageItems(items, page, |items|))
  {
    hide GoodSpans, Located;
    text, spans := before, earlier;
    var n := 0;
    while n < |items|
      invariant 0 <= n <= |items|
      invariant text == before + JoinItems(items[..n])
      invariant GoodSpans(text, spans) && forall i | 0 <= i < |spans| :: spans[i].page <= page
      invariant forall known | ShowItems(earlier, known) :: ShowItems(spans, known + PageItems(items, page, n))
    {
      assert items[..n + 1][..n] == items[..n];
      if n > 0 {
        SpansExtend(text, spans, "\n");
        text := text + "\n";
      }
      SpansAppend(text, spans, page, items[n]);
      spans := spans + [LineSpan(page, items[n], |text|, |text + items[n]|)];
      text := text + items[n];
      n := n + 1;
    }
    assert items[..n] == items;
  }

  // ----- the section machine -----

  datatype OpenSection = OpenSection(path: seq<string>, page: nat, start: nat)

  datatype Machine = Machine(root: seq<string>, current: Option<OpenSection>, hasBody: bool, sections: seq<Section>)

  function NextContentStart(text: string, p: nat): (q: nat)
    ensures p <= q && (q <= |text| || q == p)
    decreases |text| - p
  {
    if p < |text| && text[p] in "\n\U{000C}" then NextContentStart(text, p + 1) else p
  }

  function TrimEnd(text: string, start: nat, end: nat): (e: nat)
    requires end <= |text|
    ensures e <= end && (start < e ==> text[e - 1] !in "\n\U{000C} ")
    decreases end
  {
    if start < end && text[end - 1] in "\n\U{000C} " then TrimEnd(text, start, end - 1) else end
  }

  /** The page of the last of spans[..k] that overlaps [start, end), or `page` when none does. */
  function LastPage(spans: seq<LineSpan>, k: nat, start: nat, end: nat, page: nat): nat
    requires k <= |spans|
  {
    if k == 0 then page
    else if spans[k - 1].start < end && spans[k - 1].end > start then spans[k - 1].page
    else LastPage(spans, k - 1, start, end, page)
  }

  /** Closes the open section before `end`; a section without text is dropped. */
  function Close(text: string, spans: seq<LineSpan>, m: Machine, end: nat): Machine
    requires end <= |text|
  {
    match m.current
    case None => m
    case Some(open) =>
      var e := TrimEnd(text, open.start, end);
      var added :=
        if e <= open.start then []
        else [Chunking.Section(open.path, text[open.start..e], Some(open.page),
                               Some(LastPage(spans, |spans|, open.start, e, open.page)), open.start, e)];
      Machine(m.root, None, false, m.sections + added)
  }

  function Step(h: Headings, text: string, spans: seq<LineSpan>, m: Machine, span: LineSpan): Machine
    requires span.start <= |text|
  {
    if span.page in h.contentsPages then m
    else
      var heading := h.normalizeClaim(span.text);
      if h.isPart(heading) then Close(text, spans, m, span.start).(root := [])
      else if h.isSummary(heading) then Close(text, spans, m, span.start).(root := [heading])
      else if h.isBoundary(heading) then Close(text, spans, m, span.start)
      else if h.isClaim(heading) then
        Close(text, spans, m, span.start).(
          current := Some(OpenSection(m.root + [heading], span.page, NextContentStart(text, span.end))),
          hasBody := false)
      else if m.current.Some? && m.hasBody && h.isOutline(heading) then Close(text, spans, m, span.start)
      else if m.current.Some? && !h.isOutline(heading) then m.(hasBody := true)
      else m
  }

  function Run(h: Headings, text: string, spans: seq<LineSpan>, i: nat): Machine
    requires i <= |spans| && forall k | 0 <= k < |spans| :: spans[k].start <= |text|
  {
    if i == 0 then Machine([], None, false, []) else Step(h, text, spans, Run(h, text, spans, i - 1), spans[i - 1])
  }

  function CutSections(h: Headings, text: string, spans: seq<LineSpan>): seq<Section>
    requires forall k | 0 <= k < |spans| :: spans[k].start <= |text|
  {
    Close(text, spans, Run(h, text, spans, |spans|), |text|).sections
  }

  // ----- what the sections are -----

  /** A claim, summary, part or boundary heading on a page that is not a contents page. */
  predicate IsStop(h: Headings, span: LineSpan) {
    var heading := h.normalizeClaim(span.text);
    span.page !in h.contentsPages
    && (h.isPart(heading) || h.isSummary(heading) || h.isBoundary(heading) || h.isClaim(heading))
  }

  /** The section is the nonempty canonical text at its own offsets, on an ordered range of pages. */
  ghost predicate IsSlice(text: string, s: Section) {
    && 0 <= s.characterStart < s.characterEnd <= |text|
    && s.exactText == text[s.characterStart..s.characterEnd]
    && s.pageStart.Some? && s.pageEnd.Some? && 1 <= s.pageStart.value <= s.pageEnd.value
  }

  ghost predicate Apart(span: LineSpan, from: int, to: int) {
    span.end <= from || to <= span.start
  }

  /** Sections are slices, follow one another without overlap up to `bound`, and contain none of the stop
      headings among spans[..i]. */
  ghost predicate GoodSections(h: Headings, text: string, spans: seq<LineSpan>, i: nat, sections: seq<Section>,
                               bound: nat)
    requires i <= |spans|
  {
    && (forall a | 0 <= a < |sections| :: IsSlice(text, sections[a]) && sections[a].characterEnd <= bound)
    && (forall a, b | 0 <= a < b < |sections| :: sections[a].characterEnd <= sections[b].characterStart)
    && (forall a, k | 0 <= a < |sections| && 0 <= k < i && IsStop(h, spans[k]) ::
          Apart(spans[k], sections[a].characterStart, sections[a].characterEnd))
  }

  /** The open section begins after everything closed so far and after every stop heading read so far;
      text beyond its start is not on an earlier page. */
  ghost predicate GoodOpen(h: Headings, spans: seq<LineSpan>, i: nat, sections: seq<Section>, open: OpenSection)
    requires i <= |spans|
  {
    && 1 <= open.page
    && (forall a | 0 <= a < |sections| :: sections[a].characterEnd <= open.start)
    && (forall k | 0 <= k < i && IsStop(h, spans[k]) :: spans[k].end <= open.start)
    && (forall k | 0 <= k < |spans| && spans[k].end > open.start :: open.page <= spans[k].page)
  }

  function BoundBefore(spans: seq<LineSpan>, i: nat): nat
    requires i <= |spans|
  {
    if i == 0 then 0 else spans[i - 1].end
  }

  ghost predicate GoodMachine(h: Headings, text: string, spans: seq<LineSpan>, i: nat, m: Machine)
    requires i <= |spans|
  {
    && GoodSections(h, text, spans, i, m.sections, BoundBefore(spans, i))
    && (m.current.Some? ==> GoodOpen(h, spans, i, m.sections, m.current.value))
  }

  lemma {:induction false} LastPageNotEarlier(spans: seq<LineSpan>, k: nat, start: nat, end: nat, page: nat)
    requires k <= |spans|
    requires forall j | 0 <= j < |spans| && spans[j].end > start :: page <= spans[j].page
    ensures page <= LastPage(spans, k, start, end, page)
  {
    if k > 0 {
      LastPageNotEarlier(spans, k - 1, start, end, page);
    }
  }

  /** Closing before `end`, where no stop heading read so far reaches past `end` unless it lies beyond it. */
  lemma {:induction false} CloseIsGood(h: Headings, text: string, spans: seq<LineSpan>, i: nat, m: Machine, end: nat)
    requires i <= |spans| && end <= |text| && GoodMachine(h, text, spans, i, m) && BoundBefore(spans, i) <= end
    ensures GoodSections(h, text, spans, i, Close(text, spans, m, end).sections, end)
    ensures Close(text, spans, m, end).current.None?
  {
    hide IsStop, TrimEnd, LastPage;
    if m.current.Some? {
      var open := m.current.value;
      var e := TrimEnd(text, open.start, end);
      if open.start < e {
        LastPageNotEarlier(spans, |spans|, open.start, e, open.page);
        var closed := Close(text, spans, m, end).sections;
        assert IsSlice(text, closed[|m.sections|]);
      }
    }
  }

  /** Reading one more span keeps sections that end before it good. */
  lemma {:induction false} NextSpanIsBeyond(h: Headings, text: string, spans: seq<LineSpan>, i: nat,
                                            sections: seq<Section>)
    requires i < |spans| && GoodSpans(text, spans)
    requires GoodSections(h, text, spans, i, sections, spans[i].start)
    ensures GoodSections(h, text, spans, i + 1, sections, spans[i].end)
  {
    hide IsStop, IsSlice;
    assert Located(text, spans[i]);
  }

  lemma {:induction false} BoundGrows(h: Headings, text: string, spans: seq<LineSpan>, i: nat, sections: seq<Section>)
    requires i < |spans| && GoodSpans(text, spans)
    requires GoodSections(h, text, spans, i, sections, BoundBefore(spans, i))
    ensures BoundBefore(spans, i) <= spans[i].start
    ensures GoodSections(h, text, spans, i, sections, spans[i].start)
  {
    hide IsStop, IsSlice;
  }

  lemma {:induction false} StepIsGood(h: Headings, text: string, spans: seq<LineSpan>, i: nat, m: Machine)
    requires i < |spans| && GoodSpans(text, spans) && GoodMachine(h, text, spans, i, m)
    ensures spans[i].start <= |text|
    ensures GoodMachine(h, text, spans, i + 1, Step(h, text, spans, m, spans[i]))
  {
    hide GoodSections, Close, IsSlice, NextContentStart;
    var span := spans[i];
    assert Located(text, span);
    BoundGrows(h, text, spans, i, m.sections);
    CloseIsGood(h, text, spans, i, m, span.start);
    NextSpanIsBeyond(h, text, spans, i, m.sections);
    var closed := Close(text, spans, m, span.start);
    NextSpanIsBeyond(h, text, spans, i, closed.sections);
    if IsStop(h, span) && Step(h, text, spans, m, span).current.Some? {
      NewOpenIsGood(h, text, spans, i, closed.sections, m.root + [h.normalizeClaim(span.text)]);
    }
  }

  lemma {:induction false} NewOpenIsGood(h: Headings, text: string, spans: seq<LineSpan>, i: nat,
                                         sections: seq<Section>, path: seq<string>)
    requires i < |spans| && GoodSpans(text, spans)
    requires GoodSections(h, text, spans, i + 1, sections, spans[i].end)
    ensures GoodOpen(h, spans, i + 1, sections, OpenSection(path, spans[i].page, NextContentStart(text, spans[i].end)))
  {
    hide IsStop, IsSlice;
    assert Located(text, spans[i]);
  }

  lemma {:induction false} RunIsGood(h: Headings, text: string, spans: seq<LineSpan>, i: nat)
    requires i <= |spans| && GoodSpans(text, spans)
    ensures forall k | 0 <= k < |spans| :: spans[k].start <= |text|
    ensures GoodMachine(h, text, spans, i, Run(h, text, spans, i))
    decreases i
  {
    hide GoodMachine, Step;
    assert forall k | 0 <= k < |spans| :: Located(text, spans[k]);
    if i == 0 {
      StartIsGood(h, text, spans);
    } else {
      RunIsGood(h, text, spans, i - 1);
      StepIsGood(h, text, spans, i - 1, Run(h, text, spans, i - 1));
    }
  }

  lemma {:induction false} StartIsGood(h: Headings, text: string, spans: seq<LineSpan>)
    ensures GoodMachine(h, text, spans, 0, Machine([], None, false, []))
  {}

  /** For every canonical layout and every heading vocabulary, the sections are ordered, disjoint slices of
      the canonical text and contain no stop heading from a page that is not a contents page. */
  lemma {:induction false} SectionsAreSlices(h: Headings, text: string, spans: seq<LineSpan>)
    requires GoodSpans(text, spans)
    ensures forall k | 0 <= k < |spans| :: spans[k].start <= |text|
    ensures GoodSections(h, text, spans, |spans|, CutSections(h, text, spans), |text|)
  {
    hide GoodMachine, Close, Run;
    RunIsGood(h, text, spans, |spans|);
    assert spans != [] ==> Located(text, spans[|spans| - 1]);
    CloseIsGood(h, text, spans, |spans|, Run(h, text, spans, |spans|), |text|);
  }

  // ----- which sections there are -----

  ghost predicate IsPrinted(h: Headings, span: LineSpan) {
    span.page !in h.contentsPages
  }

  /** A claim heading outside the contents pages; the other kinds of heading come before it. */
  ghost predicate IsClaimHeading(h: Headings, span: LineSpan) {
    var heading := h.normalizeClaim(span.text);
    && IsPrinted(h, span) && !h.isPart(heading) && !h.isSummary(heading) && !h.isBoundary(heading)
    && h.isClaim(heading)
  }

  ghost predicate IsOutlineMark(h: Headings, span: LineSpan) {
    IsPrinted(h, span) && !IsStop(h, span) && h.isOutline(h.normalizeClaim(span.text))
  }

  ghost predicate IsBodyLine(h: Headings, span: LineSpan) {
    IsPrinted(h, span) && !IsStop(h, span) && !h.isOutline(h.normalizeClaim(span.text))
  }

  /** A part or summary heading, which says what the paths after it begin with. */
  ghost predicate SetsRoot(h: Headings, span: LineSpan) {
    var heading := h.normalizeClaim(span.text);
    IsPrinted(h, span) && (h.isPart(heading) || h.isSummary(heading))
  }

  function RootOf(h: Headings, span: LineSpan): seq<string> {
    var heading := h.normalizeClaim(span.text);
    if h.isPart(heading) then [] else [heading]
  }

  /** spans[k] is the last part or summary heading before spans[i]. */
  ghost predicate IsLastRoot(h: Headings, spans: seq<LineSpan>, k: nat, i: nat) {
    k < i <= |spans| && SetsRoot(h, spans[k]) && forall l | k < l < i :: !SetsRoot(h, spans[l])
  }

  ghost predicate HasNoRoot(h: Headings, spans: seq<LineSpan>, i: nat) {
    i <= |spans| && forall l | 0 <= l < i :: !SetsRoot(h, spans[l])
  }

  /** The root in force before spans[i] is that of the last part or summary heading before it. */
  ghost predicate RootInForce(h: Headings, spans: seq<LineSpan>, i: nat, root: seq<string>) {
    && (HasNoRoot(h, spans, i) ==> root == [])
    && forall k: nat | IsLastRoot(h, spans, k, i) :: root == RootOf(h, spans[k])
  }

  ghost predicate BodyBetween(h: Headings, spans: seq<LineSpan>, o: nat, k: nat) {
    exists b: nat :: o < b < k && b < |spans| && IsBodyLine(h, spans[b])
  }

  /** spans[k] ends the section of spans[o]: a stop heading, or an outline mark after a body line. */
  ghost predicate EndsAt(h: Headings, spans: seq<LineSpan>, o: nat, k: nat)
    requires k < |spans|
  {
    IsStop(h, spans[k]) || (IsOutlineMark(h, spans[k]) && BodyBetween(h, spans, o, k))
  }

  /** spans[o] is a claim heading whose section nothing before spans[i] ends. */
  ghost predicate OpenUntil(h: Headings, spans: seq<LineSpan>, o: nat, i: nat) {
    && o < i <= |spans| && IsClaimHeading(h, spans[o])
    && forall k: nat | o < k < i :: !EndsAt(h, spans, o, k)
  }

  /** The section of the claim heading spans[o] reaches up to spans[j], or to the end of the text. */
  ghost predicate Reaches(h: Headings, spans: seq<LineSpan>, o: nat, j: nat) {
    OpenUntil(h, spans, o, j) && (j < |spans| ==> EndsAt(h, spans, o, j))
  }

  function EndOffset(text: string, spans: seq<LineSpan>, j: nat): nat {
    if j < |spans| then spans[j].start else |text|
  }

  /** `s` is the first position at or after `p` that is no line or page break. */
  ghost predicate IsContentStart(text: string, p: nat, s: int) {
    && p <= s <= |text| && (forall k | p <= k < s :: text[k] in "\n\U{000C}")
    && (s < |text| ==> text[s] !in "\n\U{000C}")
  }

  predicate Trimmed(c: char) {
    c in "\n\U{000C} "
  }

  /** text[s..e] is text[s..end] without the characters trimmed at its end, and something is left. */
  ghost predicate IsTrimmedEnd(text: string, s: int, end: nat, e: int) {
    && 0 <= s < e <= end <= |text| && !Trimmed(text[e - 1])
    && forall k | e <= k < end :: Trimmed(text[k])
  }

  predicate Overlaps(span: LineSpan, s: int, e: int) {
    span.start < e && span.end > s
  }

  /** spans[k] is the last one that overlaps [s, e). */
  ghost predicate IsLastOverlap(spans: seq<LineSpan>, k: nat, s: int, e: int) {
    k < |spans| && Overlaps(spans[k], s, e) && forall l | k < l < |spans| :: !Overlaps(spans[l], s, e)
  }

  ghost predicate HasNoOverlap(spans: seq<LineSpan>, s: int, e: int) {
    forall l | 0 <= l < |spans| :: !Overlaps(spans[l], s, e)
  }

  /** `page` is that of the last span overlapping [s, e), or `first` when none does. */
  ghost predicate IsLastPage(spans: seq<LineSpan>, s: int, e: int, first: nat, page: int) {
    && (HasNoOverlap(spans, s, e) ==> page == first)
    && forall k: nat | IsLastOverlap(spans, k, s, e) :: page == spans[k].page
  }

  /** The section of the claim heading spans[o]. Its path is the root in force and the heading; its text runs
      from the first content after the heading to where the section ends, trimmed; its first page is the
      heading's and its last one that of the last overlapping span. */
  ghost predicate SectionBetween(h: Headings, text: string, spans: seq<LineSpan>, o: nat, j: nat, s: Section)
    requires o < |spans|
  {
    && s.headingPath != []
    && s.headingPath[|s.headingPath| - 1] == h.normalizeClaim(spans[o].text)
    && RootInForce(h, spans, o, s.headingPath[..|s.headingPath| - 1])
    && IsContentStart(text, spans[o].end, s.characterStart)
    && IsTrimmedEnd(text, s.characterStart, EndOffset(text, spans, j), s.characterEnd)
    && s.exactText == text[s.characterStart..s.characterEnd]
    && s.pageStart == Some(spans[o].page)
    && s.pageEnd.Some? && IsLastPage(spans, s.characterStart, s.characterEnd, spans[o].page, s.pageEnd.value)
  }

  ghost predicate SectionOf(h: Headings, text: string, spans: seq<LineSpan>, o: nat, j: nat, s: Section) {
    Reaches(h, spans, o, j) && SectionBetween(h, text, spans, o, j, s)
  }

  ghost predicate IsExtracted(h: Headings, text: string, spans: seq<LineSpan>, s: Section) {
    exists o: nat, j: nat :: SectionOf(h, text, spans, o, j, s)
  }

  /** A section of some claim heading that has ended before spans[i]. */
  ghost predicate ClosedBefore(h: Headings, text: string, spans: seq<LineSpan>, i: nat, s: Section) {
    exists o: nat, j: nat :: j < i && SectionOf(h, text, spans, o, j, s)
  }

  lemma {:induction false} ContentStartIsExact(text: string, p: nat, s: int)
    requires p <= |text|
    ensures IsContentStart(text, p, s) <==> s == NextContentStart(text, p)
    decreases |text| - p
  {
    if p < |text| && text[p] in "\n\U{000C}" {
      ContentStartIsExact(text, p + 1, s);
      assert IsContentStart(text, p, s) ==> s != p;
    }
  }

  lemma {:induction false} TrimmedEndIsExact(text: string, s: nat, end: nat, e: int)
    requires end <= |text|
    ensures IsTrimmedEnd(text, s, end, e) <==> e == TrimEnd(text, s, end) && s < e
    decreases end
  {
    if s < end && text[end - 1] in "\n\U{000C} " {
      TrimmedEndIsExact(text, s, end - 1, e);
      assert Trimmed(text[end - 1]);
    }
  }

  lemma {:induction false} LastPageFrom(spans: seq<LineSpan>, k: nat, s: nat, e: nat, first: nat)
    requires k <= |spans| && forall l | k <= l < |spans| :: !Overlaps(spans[l], s, e)
    ensures IsLastPage(spans, s, e, first, LastPage(spans, k, s, e, first))
  {
    if k > 0 && !Overlaps(spans[k - 1], s, e) {
      LastPageFrom(spans, k - 1, s, e, first);
    }
  }

  lemma {:induction false} LastOverlap(spans: seq<LineSpan>, k: nat, s: int, e: int) returns (r: nat)
    requires k <= |spans| && forall l | k <= l < |spans| :: !Overlaps(spans[l], s, e)
    ensures HasNoOverlap(spans, s, e) || IsLastOverlap(spans, r, s, e)
  {
    hide Overlaps;
    r := 0;
    if k > 0 {
      r := k - 1;
      if !Overlaps(spans[r], s, e) {
        r := LastOverlap(spans, r, s, e);
      }
    }
  }

  lemma {:induction false} LastPageIsUnique(spans: seq<LineSpan>, s: int, e: int, first: nat, p: int, q: int)
    requires IsLastPage(spans, s, e, first, p) && IsLastPage(spans, s, e, first, q)
    ensures p == q
  {
    var r := LastOverlap(spans, |spans|, s, e);
    hide IsLastOverlap, HasNoOverlap;
  }

  lemma {:induction false} LastRoot(h: Headings, spans: seq<LineSpan>, i: nat, k: nat) returns (r: nat)
    requires k <= i <= |spans| && forall l | k <= l < i :: !SetsRoot(h, spans[l])
    ensures HasNoRoot(h, spans, i) || IsLastRoot(h, spans, r, i)
  {
    hide SetsRoot;
    r := 0;
    if k > 0 {
      r := k - 1;
      if !SetsRoot(h, spans[r]) {
        r := LastRoot(h, spans, i, r);
      }
    }
  }

  lemma {:induction false} RootIsUnique(h: Headings, spans: seq<LineSpan>, i: nat, a: seq<string>, b: seq<string>)
    requires i <= |spans| && RootInForce(h, spans, i, a) && RootInForce(h, spans, i, b)
    ensures a == b
  {
    var r := LastRoot(h, spans, i, i);
    hide IsLastRoot, HasNoRoot, RootOf;
  }

  lemma {:induction false} RootAfter(h: Headings, spans: seq<LineSpan>, i: nat, root: seq<string>)
    requires i < |spans| && RootInForce(h, spans, i, root)
    ensures RootInForce(h, spans, i + 1, if SetsRoot(h, spans[i]) then RootOf(h, spans[i]) else root)
  {
    hide SetsRoot, RootOf;
    var n := i + 1;
    forall k: nat | IsLastRoot(h, spans, k, n)
      ensures RootOf(h, spans[k]) == if SetsRoot(h, spans[i]) then RootOf(h, spans[i]) else root
    {
      assert k != i ==> IsLastRoot(h, spans, k, i);
    }
    if HasNoRoot(h, spans, n) {
      assert HasNoRoot(h, spans, i) && !SetsRoot(h, spans[i]);
    }
  }

  /** The open section of the machine is that of the claim heading spans[o]. */
  ghost predicate OpenShows(h: Headings, text: string, spans: seq<LineSpan>, o: nat, i: nat, open: OpenSection,
                            hasBody: bool)
  {
    && OpenUntil(h, spans, o, i)
    && open.path != [] && open.path[|open.path| - 1] == h.normalizeClaim(spans[o].text)
    && RootInForce(h, spans, o, open.path[..|open.path| - 1])
    && open.page == spans[o].page && IsContentStart(text, spans[o].end, open.start)
    && (hasBody <==> BodyBetween(h, spans, o, i))
  }

  ghost predicate SomeOpen(h: Headings, text: string, spans: seq<LineSpan>, i: nat, open: OpenSection, hasBody: bool) {
    exists o: nat :: OpenShows(h, text, spans, o, i, open, hasBody)
  }

  ghost predicate NoneOpen(h: Headings, spans: seq<LineSpan>, i: nat) {
    forall o: nat :: !OpenUntil(h, spans, o, i)
  }

  /** After spans[..i]: the root in force, the claim heading whose section is open, and the closed sections. */
  ghost predicate MachineShows(h: Headings, text: string, spans: seq<LineSpan>, i: nat, m: Machine)
    requires i <= |spans|
  {
    && RootInForce(h, spans, i, m.root)
    && (if m.current.Some? then SomeOpen(h, text, spans, i, m.current.value, m.hasBody)
        else NoneOpen(h, spans, i))
    && forall s :: s in m.sections <==> ClosedBefore(h, text, spans, i, s)
  }

  /** Closing the section of spans[o] before spans[j] adds exactly its section. */
  lemma {:induction false} CloseAdds(h: Headings, text: string, spans: seq<LineSpan>, o: nat, j: nat, m: Machine,
                                     s: Section)
    requires GoodSpans(text, spans) && m.current.Some? && EndOffset(text, spans, j) <= |text|
    requires o < j <= |spans| && OpenShows(h, text, spans, o, j, m.current.value, m.hasBody)
    ensures s in Close(text, spans, m, EndOffset(text, spans, j)).sections
       <==> s in m.sections || SectionBetween(h, text, spans, o, j, s)
  {
    hide RootInForce, IsContentStart, IsTrimmedEnd, TrimEnd, LastPage, IsLastPage, OpenUntil, BodyBetween;
    var open, end := m.current.value, EndOffset(text, spans, j);
    var e := TrimEnd(text, open.start, end);
    assert spans[o].end <= |text| by { assert Located(text, spans[o]); }
    hide GoodSpans, Located;
    TrimmedEndIsExact(text, open.start, end, e);
    LastPageFrom(spans, |spans|, open.start, e, open.page);
    if open.start < e {
      AddedIsSection(h, text, spans, o, j, open, e);
    }
    if SectionBetween(h, text, spans, o, j, s) {
      ContentStartIsExact(text, spans[o].end, s.characterStart);
      ContentStartIsExact(text, spans[o].end, open.start);
      TrimmedEndIsExact(text, open.start, end, s.characterEnd);
      RootIsUnique(h, spans, o, s.headingPath[..|s.headingPath| - 1], open.path[..|open.path| - 1]);
      assert s.headingPath == s.headingPath[..|s.headingPath| - 1] + [s.headingPath[|s.headingPath| - 1]];
      assert open.path == open.path[..|open.path| - 1] + [open.path[|open.path| - 1]];
      LastPageIsUnique(spans, open.start, e, open.page, s.pageEnd.value,
                       LastPage(spans, |spans|, open.start, e, open.page));
    }
  }

  lemma {:induction false} AddedIsSection(h: Headings, text: string, spans: seq<LineSpan>, o: nat, j: nat,
                                          open: OpenSection, e: nat)
    requires o < j <= |spans| && OpenShows(h, text, spans, o, j, open, BodyBetween(h, spans, o, j))
    requires IsTrimmedEnd(text, open.start, EndOffset(text, spans, j), e)
    requires IsLastPage(spans, open.start, e, open.page, LastPage(spans, |spans|, open.start, e, open.page))
    ensures SectionBetween(h, text, spans, o, j,
                           Chunking.Section(open.path, text[open.start..e], Some(open.page),
                                            Some(LastPage(spans, |spans|, open.start, e, open.page)), open.start, e))
  {
    hide RootInForce, IsContentStart, LastPage, IsLastPage, OpenUntil, BodyBetween;
  }

  /** Only one section can be open: the heading that opens a later one ends it. */
  lemma {:induction false} OneOpen(h: Headings, spans: seq<LineSpan>, o: nat, q: nat, i: nat)
    requires OpenUntil(h, spans, o, i) && OpenUntil(h, spans, q, i)
    ensures o == q
  {
    hide BodyBetween, IsOutlineMark;
    assert EndsAt(h, spans, o, q) && EndsAt(h, spans, q, o);
  }

  lemma {:induction false} OneReach(h: Headings, spans: seq<LineSpan>, o: nat, j: nat, k: nat)
    requires Reaches(h, spans, o, j) && Reaches(h, spans, o, k)
    ensures j == k
  {
    hide EndsAt, IsClaimHeading;
  }

  /** A span that ends the open section closes it. */
  lemma {:induction false} ClosedAfterEnd(h: Headings, text: string, spans: seq<LineSpan>, o: nat, i: nat, m: Machine)
    requires GoodSpans(text, spans) && i < |spans| && spans[i].start <= |text| && MachineShows(h, text, spans, i, m)
    requires m.current.Some? && OpenShows(h, text, spans, o, i, m.current.value, m.hasBody) && EndsAt(h, spans, o, i)
    ensures var closed := Close(text, spans, m, spans[i].start);
      forall s :: s in closed.sections <==> ClosedBefore(h, text, spans, i + 1, s)
  {
    hide GoodSpans, RootInForce, EndsAt, SectionBetween, IsContentStart, BodyBetween, Close;
    var closed := Close(text, spans, m, spans[i].start);
    assert Reaches(h, spans, o, i) && EndOffset(text, spans, i) == spans[i].start;
    forall s ensures s in closed.sections <==> ClosedBefore(h, text, spans, i + 1, s) {
      CloseAdds(h, text, spans, o, i, m, s);
      if SectionBetween(h, text, spans, o, i, s) {
        assert SectionOf(h, text, spans, o, i, s);
      }
      if ClosedBefore(h, text, spans, i + 1, s) && !ClosedBefore(h, text, spans, i, s) {
        var q: nat, j: nat :| j < i + 1 && SectionOf(h, text, spans, q, j, s);
        OneOpen(h, spans, o, q, i);
      }
    }
  }

  /** A span at which no section ends closes none. */
  lemma {:induction false} NothingEnds(h: Headings, text: string, spans: seq<LineSpan>, i: nat, s: Section)
    requires i < |spans| && forall o: nat | OpenUntil(h, spans, o, i) :: !EndsAt(h, spans, o, i)
    ensures ClosedBefore(h, text, spans, i + 1, s) <==> ClosedBefore(h, text, spans, i, s)
  {
    hide EndsAt, SectionBetween, OpenUntil;
  }

  lemma {:induction false} BodyGrows(h: Headings, spans: seq<LineSpan>, o: nat, i: nat)
    requires o < i < |spans|
    ensures BodyBetween(h, spans, o, i + 1) <==> BodyBetween(h, spans, o, i) || IsBodyLine(h, spans[i])
  {
    hide IsBodyLine;
  }

  lemma {:induction false} OpenGrows(h: Headings, spans: seq<LineSpan>, o: nat, i: nat)
    requires i < |spans|
    ensures OpenUntil(h, spans, o, i + 1)
       <==> (o == i && IsClaimHeading(h, spans[i])) || (OpenUntil(h, spans, o, i) && !EndsAt(h, spans, o, i))
  {
    hide EndsAt, IsClaimHeading;
  }

  /** Reading `span` ends the open section. */
  ghost predicate Ends(h: Headings, m: Machine, span: LineSpan) {
    m.current.Some? && (IsStop(h, span) || (IsOutlineMark(h, span) && m.hasBody))
  }

  lemma {:induction false} StepReads(h: Headings, text: string, spans: seq<LineSpan>, m: Machine, span: LineSpan)
    requires span.start <= |text|
    ensures var next := Step(h, text, spans, m, span);
      && next.root == (if SetsRoot(h, span) then RootOf(h, span) else m.root)
      && next.sections == (if Ends(h, m, span) then Close(text, spans, m, span.start).sections else m.sections)
      && next.current == (if IsClaimHeading(h, span) then
                            Some(OpenSection(m.root + [h.normalizeClaim(span.text)], span.page,
                                             NextContentStart(text, span.end)))
                          else if Ends(h, m, span) then None else m.current)
      && (IsClaimHeading(h, span) ==> !next.hasBody)
      && (!IsClaimHeading(h, span) && m.current.Some? && !Ends(h, m, span) ==>
            (next.hasBody <==> m.hasBody || IsBodyLine(h, span)))
  {
    hide NextContentStart, TrimEnd, LastPage;
  }

  lemma {:induction false} StepKeepsSections(h: Headings, text: string, spans: seq<LineSpan>, i: nat, m: Machine)
    requires GoodSpans(text, spans) && i < |spans| && spans[i].start <= |text| && MachineShows(h, text, spans, i, m)
    ensures forall s :: s in Step(h, text, spans, m, spans[i]).sections <==> ClosedBefore(h, text, spans, i + 1, s)
  {
    hide GoodSpans, RootInForce, IsStop, IsOutlineMark, IsContentStart, BodyBetween, Step, Close, ClosedBefore,
         OpenUntil, IsClaimHeading, IsBodyLine, SetsRoot;
    StepReads(h, text, spans, m, spans[i]);
    if Ends(h, m, spans[i]) {
      var o: nat :| OpenShows(h, text, spans, o, i, m.current.value, m.hasBody);
      ClosedAfterEnd(h, text, spans, o, i, m);
    } else {
      forall o: nat | OpenUntil(h, spans, o, i) ensures !EndsAt(h, spans, o, i) {
        if m.current.Some? {
          var q: nat :| OpenShows(h, text, spans, q, i, m.current.value, m.hasBody);
          OneOpen(h, spans, o, q, i);
        }
      }
      forall s ensures s in Step(h, text, spans, m, spans[i]).sections <==> ClosedBefore(h, text, spans, i + 1, s) {
        NothingEnds(h, text, spans, i, s);
      }
    }
  }

  lemma {:induction false} NewOpenShows(h: Headings, text: string, spans: seq<LineSpan>, i: nat, root: seq<string>)
    requires GoodSpans(text, spans) && i < |spans| && RootInForce(h, spans, i, root) && IsClaimHeading(h, spans[i])
    ensures OpenShows(h, text, spans, i, i + 1,
                      OpenSection(root + [h.normalizeClaim(spans[i].text)], spans[i].page,
                                  NextContentStart(text, spans[i].end)), false)
  {
    hide RootInForce, IsClaimHeading, NextContentStart, IsContentStart;
    assert Located(text, spans[i]);
    ContentStartIsExact(text, spans[i].end, NextContentStart(text, spans[i].end));
    var path := root + [h.normalizeClaim(spans[i].text)];
    assert path[..|path| - 1] == root;
  }

  lemma {:induction false} StepKeepsOpen(h: Headings, text: string, spans: seq<LineSpan>, i: nat, m: Machine)
    requires GoodSpans(text, spans) && i < |spans| && spans[i].start <= |text| && MachineShows(h, text, spans, i, m)
    ensures var next := Step(h, text, spans, m, spans[i]);
      if next.current.Some? then SomeOpen(h, text, spans, i + 1, next.current.value, next.hasBody)
      else NoneOpen(h, spans, i + 1)
  {
    hide GoodSpans, RootInForce, IsStop, IsOutlineMark, IsContentStart, BodyBetween, Step, Close, ClosedBefore,
         OpenUntil, IsClaimHeading, IsBodyLine, SetsRoot;
    StepReads(h, text, spans, m, spans[i]);
    var next := Step(h, text, spans, m, spans[i]);
    if IsClaimHeading(h, spans[i]) {
      NewOpenShows(h, text, spans, i, m.root);
    } else if m.current.Some? && !Ends(h, m, spans[i]) {
      var o: nat :| OpenShows(h, text, spans, o, i, m.current.value, m.hasBody);
      OpenGrows(h, spans, o, i);
      BodyGrows(h, spans, o, i) by { assert o < i by { OpenIsBefore(h, spans, o, i); } }
      assert OpenShows(h, text, spans, o, i + 1, next.current.value, next.hasBody);
    } else {
      var n := i + 1;
      forall q: nat ensures !OpenUntil(h, spans, q, n) {
        OpenGrows(h, spans, q, i);
        if m.current.Some? && OpenUntil(h, spans, q, i) {
          var o: nat :| OpenShows(h, text, spans, o, i, m.current.value, m.hasBody);
          OneOpen(h, spans, o, q, i);
        }
      }
    }
  }

  lemma {:induction false} OpenIsBefore(h: Headings, spans: seq<LineSpan>, o: nat, i: nat)
    requires OpenUntil(h, spans, o, i)
    ensures o < i <= |spans| && IsClaimHeading(h, spans[o])
  {
    hide IsClaimHeading, EndsAt;
  }

  lemma {:induction false} RunShows(h: Headings, text: string, spans: seq<LineSpan>, i: nat)
    requires i <= |spans| && GoodSpans(text, spans) && forall k | 0 <= k < |spans| :: spans[k].start <= |text|
    ensures MachineShows(h, text, spans, i, Run(h, text, spans, i))
    decreases i
  {
    hide GoodSpans, Step, MachineShows;
    if i == 0 {
      StartShows(h, text, spans);
    } else {
      RunShows(h, text, spans, i - 1);
      StepShows(h, text, spans, i - 1, Run(h, text, spans, i - 1));
    }
  }

  lemma {:induction false} StartShows(h: Headings, text: string, spans: seq<LineSpan>)
    ensures MachineShows(h, text, spans, 0, Machine([], None, false, []))
  {
    hide SectionOf, SetsRoot, IsClaimHeading, EndsAt;
  }

  lemma {:induction false} StepShows(h: Headings, text: string, spans: seq<LineSpan>, i: nat, m: Machine)
    requires GoodSpans(text, spans) && i < |spans| && spans[i].start <= |text| && MachineShows(h, text, spans, i, m)
    ensures MachineShows(h, text, spans, i + 1, Step(h, text, spans, m, spans[i]))
  {
    hide GoodSpans, Step, ClosedBefore, SomeOpen, NoneOpen, RootInForce, SetsRoot, RootOf, IsClaimHeading, Ends, Close;
    StepKeepsSections(h, text, spans, i, m);
    StepKeepsOpen(h, text, spans, i, m);
    StepReads(h, text, spans, m, spans[i]);
    RootAfter(h, spans, i, m.root);
  }

  /** The sections are exactly those of the claim headings outside the contents pages. */
  lemma {:induction false} SectionsAreExact(h: Headings, text: string, spans: seq<LineSpan>, s: Section)
    requires GoodSpans(text, spans)
    ensures forall k | 0 <= k < |spans| :: spans[k].start <= |text|
    ensures s in CutSections(h, text, spans) <==> IsExtracted(h, text, spans, s)
  {
    hide RootInForce, IsContentStart, BodyBetween, Close, SectionBetween, Run, EndsAt, IsClaimHeading;
    assert forall k | 0 <= k < |spans| :: Located(text, spans[k]);
    hide GoodSpans, Located;
    RunShows(h, text, spans, |spans|);
    var n, m := |spans|, Run(h, text, spans, |spans|);
    if m.current.Some? {
      var o: nat :| OpenShows(h, text, spans, o, n, m.current.value, m.hasBody);
      CloseAdds(h, text, spans, o, n, m, s);
      if SectionBetween(h, text, spans, o, n, s) {
        assert SectionOf(h, text, spans, o, n, s);
      }
      if IsExtracted(h, text, spans, s) {
        var q: nat, j: nat :| SectionOf(h, text, spans, q, j, s);
        if j == n {
          OneOpen(h, spans, o, q, n);
        } else {
          assert ClosedBefore(h, text, spans, n, s);
        }
      }
    } else {
      CloseWithoutOpen(text, spans, m);
      if IsExtracted(h, text, spans, s) {
        var q: nat, j: nat :| SectionOf(h, text, spans, q, j, s);
        assert ClosedBefore(h, text, spans, n, s);
      }
    }
  }

  lemma {:induction false} CloseWithoutOpen(text: string, spans: seq<LineSpan>, m: Machine)
    requires m.current.None?
    ensures Close(text, spans, m, |text|) == m
  {}

  // ----- every claim heading with text has its one section -----

  /** Something other than the trimmed characters stands between the heading and the end of its section. */
  ghost predicate HoldsMore(text: string, from: nat, end: nat) {
    exists k: nat :: from <= k < end && k < |text| && !Trimmed(text[k])
  }

  /** Where the section of a claim heading ends is determined by the headings alone. */
  lemma {:induction false} ClaimReaches(h: Headings, spans: seq<LineSpan>, o: nat, i: nat) returns (j: nat)
    requires OpenUntil(h, spans, o, i)
    ensures i <= j && Reaches(h, spans, o, j)
    decreases |spans| - i
  {
    hide EndsAt, IsClaimHeading;
    if i < |spans| && !EndsAt(h, spans, o, i) {
      OpenGrows(h, spans, o, i);
      j := ClaimReaches(h, spans, o, i + 1);
    } else {
      j := i;
    }
  }

  lemma {:induction false} RootExists(h: Headings, spans: seq<LineSpan>, i: nat) returns (root: seq<string>)
    requires i <= |spans|
    ensures RootInForce(h, spans, i, root)
  {
    hide SetsRoot, RootOf, RootInForce;
    if i == 0 {
      root := [];
      NoRootYet(h, spans);
    } else {
      root := RootExists(h, spans, i - 1);
      RootAfter(h, spans, i - 1, root);
      root := if SetsRoot(h, spans[i - 1]) then RootOf(h, spans[i - 1]) else root;
    }
  }

  lemma {:induction false} NoRootYet(h: Headings, spans: seq<LineSpan>)
    ensures RootInForce(h, spans, 0, [])
  {}

  lemma {:induction false} TrimLeavesText(text: string, p: nat, s: nat, end: nat)
    requires p <= end <= |text| && IsContentStart(text, p, s)
    ensures HoldsMore(text, p, end) <==> s < TrimEnd(text, s, end)
  {
    var e := TrimEnd(text, s, end);
    TrimmedEndIsExact(text, s, end, e);
    if s < e {
      assert !Trimmed(text[e - 1]);
    } else {
      TrimmedAll(text, s, end);
    }
  }

  lemma {:induction false} TrimmedAll(text: string, s: nat, end: nat)
    requires end <= |text| && TrimEnd(text, s, end) <= s
    ensures forall k | s <= k < end :: Trimmed(text[k])
    decreases end
  {
    if s < end {
      TrimmedAll(text, s, end - 1);
    }
  }

  /** The section of spans[o] up to spans[j] exists exactly when the stretch holds more than trimmed characters. */
  lemma {:induction false} ClaimSection(h: Headings, text: string, spans: seq<LineSpan>, o: nat, j: nat)
    requires GoodSpans(text, spans) && Reaches(h, spans, o, j)
    ensures (exists s :: SectionBetween(h, text, spans, o, j, s))
       <==> HoldsMore(text, spans[o].end, EndOffset(text, spans, j))
  {
    hide EndsAt, TrimEnd, NextContentStart, HoldsMore;
    SpansInText(text, spans, o, j);
    hide GoodSpans, IsContentStart, EndOffset;
    var p, end := spans[o].end, EndOffset(text, spans, j);
    var start := NextContentStart(text, p);
    ContentStartIsExact(text, p, start);
    TrimLeavesText(text, p, start, end);
    if HoldsMore(text, p, end) {
      hide SectionBetween;
      var s := BuildSection(h, text, spans, o, j, start);
    }
    if s :| SectionBetween(h, text, spans, o, j, s) {
      ContentStartIsExact(text, p, s.characterStart);
      TrimmedEndIsExact(text, start, end, s.characterEnd);
    }
  }

  lemma {:induction false} BuildSection(h: Headings, text: string, spans: seq<LineSpan>, o: nat, j: nat, start: nat)
    returns (s: Section)
    requires Reaches(h, spans, o, j) && EndOffset(text, spans, j) <= |text|
    requires IsContentStart(text, spans[o].end, start) && start < TrimEnd(text, start, EndOffset(text, spans, j))
    ensures SectionBetween(h, text, spans, o, j, s)
  {
    hide EndsAt, BodyBetween, TrimEnd, LastPage, IsContentStart, RootInForce, IsLastPage, SectionBetween;
    var root := RootExists(h, spans, o);
    var e, page := TrimEnd(text, start, EndOffset(text, spans, j)), spans[o].page;
    TrimmedEndIsExact(text, start, EndOffset(text, spans, j), e);
    LastPageFrom(spans, |spans|, start, e, page);
    var open := OpenSection(root + [h.normalizeClaim(spans[o].text)], page, start);
    assert open.path[..|open.path| - 1] == root;
    AddedIsSection(h, text, spans, o, j, open, e);
    var pageEnd := LastPage(spans, |spans|, start, e, page);
    s := Chunking.Section(open.path, text[start..e], Some(page), Some(pageEnd), start, e);
  }

  lemma {:induction false} SpansInText(text: string, spans: seq<LineSpan>, o: nat, j: nat)
    requires GoodSpans(text, spans) && o < j <= |spans|
    ensures spans[o].end <= EndOffset(text, spans, j) <= |text|
  {
    assert Located(text, spans[o]);
    assert j < |spans| ==> Located(text, spans[j]);
  }

  /** A claim heading outside the contents pages reaches up to one span, and has a section among the extracted
      ones exactly when that stretch of the text holds more than trimmed characters. */
  lemma {:induction false} ClaimsAreExtracted(h: Headings, text: string, spans: seq<LineSpan>, o: nat)
    returns (j: nat)
    requires GoodSpans(text, spans) && o < |spans| && IsClaimHeading(h, spans[o])
    ensures Reaches(h, spans, o, j) && forall k: nat | Reaches(h, spans, o, k) :: k == j
    ensures forall k | 0 <= k < |spans| :: spans[k].start <= |text|
    ensures (exists s :: s in CutSections(h, text, spans) && SectionBetween(h, text, spans, o, j, s))
       <==> HoldsMore(text, spans[o].end, EndOffset(text, spans, j))
  {
    hide EndsAt, IsClaimHeading, CutSections;
    j := ClaimReaches(h, spans, o, o + 1);
    forall k: nat | Reaches(h, spans, o, k) ensures k == j {
      OneReach(h, spans, o, j, k);
    }
    ClaimSection(h, text, spans, o, j);
    hide SectionBetween, Reaches;
    SectionsAreSlices(h, text, spans);
    if exists s :: SectionBetween(h, text, spans, o, j, s) {
      var s :| SectionBetween(h, text, spans, o, j, s);
      assert SectionOf(h, text, spans, o, j, s);
      SectionsAreExact(h, text, spans, s);
    }
  }

  /** No claim heading has two sections. */
  lemma {:induction false} OneSectionPerClaim(h: Headings, text: string, spans: seq<LineSpan>, a: nat, b: nat, o: nat,
                                              j: nat, k: nat)
    requires GoodSpans(text, spans) && forall i | 0 <= i < |spans| :: spans[i].start <= |text|
    requires var sections := CutSections(h, text, spans);
      && a < |sections| && b < |sections|
      && SectionOf(h, text, spans, o, j, sections[a]) && SectionOf(h, text, spans, o, k, sections[b])
    ensures a == b
  {
    hide EndsAt, IsClaimHeading, CutSections, IsTrimmedEnd, RootInForce, IsLastPage;
    OneReach(h, spans, o, j, k);
    var sections := CutSections(h, text, spans);
    SectionsAreSlices(h, text, spans);
    assert Located(text, spans[o]);
    ContentStartIsExact(text, spans[o].end, sections[a].characterStart);
    ContentStartIsExact(text, spans[o].end, sections[b].characterStart);
    assert IsSlice(text, sections[a]) && IsSlice(text, sections[b]);
  }

  // ----- sections of risk tables -----

  predicate IsAggregateRisk(h: Headings, s: Section) {
    s.headingPath != [] && h.isRisk(h.normalize(s.headingPath[|s.headingPath| - 1]))
  }

  predicate OnPage(s: Section, page: int) {
    s.pageStart.Some? && s.pageEnd.Some? && s.pageStart.value <= page <= s.pageEnd.value
  }

  function AggregateRisks(h: Headings, sections: seq<Section>): seq<Section> {
    Filter(sections, s => IsAggregateRisk(h, s))
  }

  function SectionsOnPage(sections: seq<Section>, page: int): seq<Section> {
    Filter(sections, s => OnPage(s, page))
  }

  function ByStart(): (Section, Section) -> bool {
    (a: Section, b: Section) => a.characterStart <= b.characterStart
  }

  /** The first of spans[k..] on `page` that starts at or after `after` and reads `cell`. */
  function MatchingSpan(spans: seq<LineSpan>, k: nat, page: nat, cell: string, after: int): (r: Option<LineSpan>)
    requires k <= |spans|
    ensures r.Some? ==>
              && (exists i :: k <= i < |spans| && spans[i] == r.value)
              && r.value.page == page && r.value.start >= after && r.value.text == cell
    ensures r.None? ==> forall i | k <= i < |spans| :: !(spans[i].page == page && spans[i].start >= after
                                                         && spans[i].text == cell)
    decreases |spans| - k
  {
    if k == |spans| then None
    else if spans[k].page == page && spans[k].start >= after && spans[k].text == cell then Some(spans[k])
    else MatchingSpan(spans, k + 1, page, cell, after)
  }

  /** Number of cells up to and including the last risk heading; 0 when there is none. */
  function AfterRiskHeading(h: Headings, cells: seq<string>): (n: nat)
    ensures n <= |cells|
  {
    if cells == [] then 0
    else if h.isRisk(h.normalize(cells[|cells| - 1])) then |cells|
    else AfterRiskHeading(h, cells[..|cells| - 1])
  }

  /** What one table row does: it may switch collection on or off, and may name a risk with its text. */
  datatype RowReading = RowReading(active: bool, named: Option<(string, string)>)

  function ReadRow(h: Headings, cells: seq<string>, active: bool): RowReading {
    if cells == [] then RowReading(active, None)
    else if h.isBoundary(h.normalize(cells[0])) then RowReading(false, None)
    else
      var n := AfterRiskHeading(h, cells);
      if !(active || n > 0) then RowReading(false, None)
      else
        var substantive := Filter(cells[n..], cell => !h.isTableHeader(h.normalize(cell)) && !h.isNumber(cell));
        if |substantive| < 2 then RowReading(true, None)
        else
          var risk, body := substantive[|substantive| - 2], substantive[|substantive| - 1];
          if !h.mentionsRisk(risk) || |body| < 10 then RowReading(true, None)
          else RowReading(true, Some((risk, body)))
  }

  /** The earliest of a nonempty list of sections, the first one on a tie. */
  function Earliest(sections: seq<Section>): (s: Section)
    requires sections != []
    ensures s in sections && forall x | x in sections :: s.characterStart <= x.characterStart
  {
    if |sections| == 1 then sections[0]
    else
      var e := Earliest(sections[..|sections| - 1]);
      assert sections == sections[..|sections| - 1] + [sections[|sections| - 1]];
      if sections[|sections| - 1].characterStart < e.characterStart then sections[|sections| - 1] else e
  }

  datatype RowResult = NoSection | RiskSection(section: Section) | CellSpanMissing

  /** The section of a named risk: from the risk's span to the end of the text's span after it. */
  function RiskRow(text: string, spans: seq<LineSpan>, page: nat, parents: seq<Section>, risk: string,
                   body: string): RowResult
    requires parents != []
  {
    match MatchingSpan(spans, 0, page, risk, -1)
    case None => CellSpanMissing
    case Some(labelSpan) =>
      match MatchingSpan(spans, 0, page, body, labelSpan.end)
      case None => CellSpanMissing
      case Some(bodySpan) =>
        if bodySpan.start <= labelSpan.start then NoSection
        else
          RiskSection(Chunking.Section(Earliest(parents).headingPath + [risk],
                                       Text.Slice(text, labelSpan.start, bodySpan.end),
                                       Some(page), Some(page), labelSpan.start, bodySpan.end))
  }

  /** Sections of rows[..n] of a page, and whether collection is then active; None when a cell has no span. */
  function RiskRows(h: Headings, text: string, spans: seq<LineSpan>, page: nat, parents: seq<Section>,
                    rows: seq<seq<string>>, n: nat): Option<(seq<Section>, bool)>
    requires parents != [] && n <= |rows|
  {
    if n == 0 then Some(([], true))
    else
      match RiskRows(h, text, spans, page, parents, rows, n - 1)
      case None => None
      case Some((sections, active)) =>
        var reading := ReadRow(h, rows[n - 1], active);
        if reading.named.None? then Some((sections, reading.active))
        else
          match RiskRow(text, spans, page, parents, reading.named.value.0, reading.named.value.1)
          case NoSection => Some((sections, reading.active))
          case RiskSection(s) => Some((sections + [s], reading.active))
          case CellSpanMissing => None
  }

  /** Risk sections of pages[..k]. */
  function RiskPages(h: Headings, text: string, spans: seq<LineSpan>, aggregate: seq<Section>, pages: seq<Page>,
                     k: nat): Option<seq<Section>>
    requires k <= |pages|
  {
    if k == 0 then Some([])
    else
      match RiskPages(h, text, spans, aggregate, pages, k - 1)
      case None => None
      case Some(earlier) =>
        var parents := SectionsOnPage(aggregate, k);
        if parents == [] then Some(earlier)
        else
          match RiskRows(h, text, spans, k, parents, pages[k - 1].rows, |pages[k - 1].rows|)
          case None => None
          case Some((sections, _)) => Some(earlier + sections)
  }

  /** Aggregate risk sections on a page that was split give way to the split sections. */
  predicate Retained(h: Headings, split: seq<Section>, s: Section) {
    !IsAggregateRisk(h, s) || !exists x | x in split :: x.pageStart.Some? && OnPage(s, x.pageStart.value)
  }

  function RetainedSections(h: Headings, sections: seq<Section>, split: seq<Section>): seq<Section> {
    Filter(sections, s => Retained(h, split, s))
  }

  function SplitRiskTables(h: Headings, text: string, spans: seq<LineSpan>, pages: seq<Page>,
                           sections: seq<Section>): Option<seq<Section>> {
    var aggregate := AggregateRisks(h, sections);
    if aggregate == [] then Some(sections)
    else
      match RiskPages(h, text, spans, aggregate, pages, |pages|)
      case None => None
      case Some(split) =>
        if split == [] then Some(sections)
        else Some(Sort(RetainedSections(h, sections, split) + split, ByStart()))
  }

  ghost predicate AllSlices(text: string, sections: seq<Section>) {
    forall s | s in sections :: IsSlice(text, s)
  }

  lemma {:induction false} RiskRowIsSlice(text: string, spans: seq<LineSpan>, page: nat, parents: seq<Section>,
                                          risk: string, body: string)
    requires parents != [] && GoodSpans(text, spans)
    ensures var r := RiskRow(text, spans, page, parents, risk, body); r.RiskSection? ==> IsSlice(text, r.section)
  {
    hide Earliest;
    assert forall i | 0 <= i < |spans| :: Located(text, spans[i]);
  }

  lemma {:induction false} RiskRowsAreSlices(h: Headings, text: string, spans: seq<LineSpan>, page: nat,
                                             parents: seq<Section>, rows: seq<seq<string>>, n: nat)
    requires parents != [] && n <= |rows| && GoodSpans(text, spans)
    ensures var r := RiskRows(h, text, spans, page, parents, rows, n); r.Some? ==> AllSlices(text, r.value.0)
  {
    hide GoodSpans, RiskRow, ReadRow, IsSlice;
    if n > 0 {
      RiskRowsAreSlices(h, text, spans, page, parents, rows, n - 1);
      var earlier := RiskRows(h, text, spans, page, parents, rows, n - 1);
      if earlier.Some? {
        var reading := ReadRow(h, rows[n - 1], earlier.value.1);
        if reading.named.Some? {
          RiskRowIsSlice(text, spans, page, parents, reading.named.value.0, reading.named.value.1);
        }
      }
    }
  }

  lemma {:induction false} RiskPagesAreSlices(h: Headings, text: string, spans: seq<LineSpan>, aggregate: seq<Section>,
                                              pages: seq<Page>, k: nat)
    requires k <= |pages| && GoodSpans(text, spans)
    ensures var r := RiskPages(h, text, spans, aggregate, pages, k); r.Some? ==> AllSlices(text, r.value)
  {
    hide GoodSpans, RiskRows, IsSlice;
    if k > 0 {
      RiskPagesAreSlices(h, text, spans, aggregate, pages, k - 1);
      var parents := SectionsOnPage(aggregate, k);
      if parents != [] {
        RiskRowsAreSlices(h, text, spans, k, parents, pages[k - 1].rows, |pages[k - 1].rows|);
      }
    }
  }

  /** Sections with the risk tables split are still slices of the canonical text, in order of their start. */
  lemma {:induction false} SplitSectionsAreSlices(h: Headings, text: string, spans: seq<LineSpan>, pages: seq<Page>,
                                                  sections: seq<Section>)
    requires GoodSpans(text, spans) && AllSlices(text, sections)
    requires forall a, b | 0 <= a < b < |sections| :: sections[a].characterStart <= sections[b].characterStart
    ensures var r := SplitRiskTables(h, text, spans, pages, sections);
            r.Some? ==>
              && AllSlices(text, r.value)
              && forall a, b | 0 <= a < b < |r.value| :: r.value[a].characterStart <= r.value[b].characterStart
  {
    hide GoodSpans, RiskPages, IsSlice, Retained, IsAggregateRisk;
    var aggregate := AggregateRisks(h, sections);
    RiskPagesAreSlices(h, text, spans, aggregate, pages, |pages|);
    var split := RiskPages(h, text, spans, aggregate, pages, |pages|);
    if aggregate != [] && split.Some? && split.value != [] {
      FilterMembers(sections, s => Retained(h, split.value, s));
      var all := RetainedSections(h, sections, split.value) + split.value;
      SortSorts(all, ByStart());
      SameMembers(Sort(all, ByStart()), all);
    }
  }

  // ----- locators through extraction and chunking -----

  lemma {:induction false} SlicesPassValidation(text: string, sections: seq<Section>)
    requires AllSlices(text, sections)
    ensures Chunking.FirstProblem(sections, 0).None?
  {
    forall k | 0 <= k < |sections| ensures Chunking.SectionProblem(sections[k]).None? {
      assert IsSlice(text, sections[k]);
    }
    Chunking.NoProblem(sections, 0);
  }

  /** For every layout, vocabulary and chunking configuration: each extracted section, split risk rows
      included, passes the chunker's validation, and each chunk of them is exactly the canonical text at
      the chunk's own offsets. */
  lemma {:induction false} ChunksAreCanonicalSlices(h: Headings, text: string, spans: seq<LineSpan>, pages: seq<Page>,
                                                    config: Chunking.Config)
    requires GoodSpans(text, spans) && config.Accepted() && TotalPreorder(config.keyOrder)
    ensures forall k | 0 <= k < |spans| :: spans[k].start <= |text|
    ensures var extracted := SplitRiskTables(h, text, spans, pages, CutSections(h, text, spans));
            extracted.Some? ==>
              && Chunking.FirstProblem(extracted.value, 0).None?
              && var chunks := Chunking.ChunkSorted(config,
                                                    Sort(extracted.value, Chunking.SectionOrder(config))).chunks;
                 forall i | 0 <= i < |chunks| ::
                   && 0 <= chunks[i].characterStart < chunks[i].characterEnd <= |text|
                   && chunks[i].exactText == text[chunks[i].characterStart..chunks[i].characterEnd]
  {
    hide GoodSpans, GoodSections, CutSections, SplitRiskTables, Chunking.ChunkSorted, Chunking.SectionOrder;
    SectionsAreSlices(h, text, spans);
    var cut := CutSections(h, text, spans);
    CutAreSlices(h, text, spans, cut);
    SplitSectionsAreSlices(h, text, spans, pages, cut);
    var extracted := SplitRiskTables(h, text, spans, pages, cut);
    if extracted.Some? {
      SlicesPassValidation(text, extracted.value);
      var order := Chunking.SectionOrder(config);
      var sorted := Sort(extracted.value, order);
      Chunking.KeyOrderSorts(config);
      SortSorts(extracted.value, order);
      SameMembers(sorted, extracted.value);
      Chunking.ChunksAreNumberedAndDistinct(config, sorted);
      var chunks := Chunking.ChunkSorted(config, sorted).chunks;
      forall i | 0 <= i < |chunks|
        ensures 0 <= chunks[i].characterStart < chunks[i].characterEnd <= |text|
        ensures chunks[i].exactText == text[chunks[i].characterStart..chunks[i].characterEnd]
      {
        SliceOfSlice(text, chunks[i]);
      }
    }
  }

  lemma {:induction false} CutAreSlices(h: Headings, text: string, spans: seq<LineSpan>, sections: seq<Section>)
    requires GoodSections(h, text, spans, |spans|, sections, |text|)
    ensures AllSlices(text, sections)
    ensures forall a, b | 0 <= a < b < |sections| :: sections[a].characterStart <= sections[b].characterStart
  {
    forall a, b | 0 <= a < b < |sections| ensures sections[a].characterStart <= sections[b].characterStart {
      assert IsSlice(text, sections[a]);
    }
  }

  lemma {:induction false} SliceOfSlice(text: string, chunk: Chunking.Chunk)
    requires IsSlice(text, chunk.section) && Chunking.AtItsOffsets(chunk)
    ensures 0 <= chunk.characterStart < chunk.characterEnd <= |text|
    ensures chunk.exactText == text[chunk.characterStart..chunk.characterEnd]
  {
    var whole := text[chunk.section.characterStart..chunk.section.characterEnd];
    var from, to := chunk.characterStart - chunk.section.characterStart,
        chunk.characterEnd - chunk.section.characterStart;
    assert whole[from..to] == text[chunk.characterStart..chunk.characterEnd];
  }

  // ----- the loops -----

  method CloseSection(text: string, spans: seq<LineSpan>, open: OpenSection, end: nat) returns (closed: seq<Section>)
    requires end <= |text|
    ensures forall root, hasBody, sections ::
              Close(text, spans, Machine(root, Some(open), hasBody, sections), end) ==
                Machine(root, None, false, sections + closed)
  {
    var e: nat := end;
    while e > open.start && text[e - 1] in "\n\U{000C} "
      invariant e <= end && TrimEnd(text, open.start, e) == TrimEnd(text, open.start, end)
    {
      e := e - 1;
    }
    if e <= open.start {
      return [];
    }
    var pageEnd := open.page;
    for k := 0 to |spans|
      invariant pageEnd == LastPage(spans, k, open.start, e, open.page)
    {
      if spans[k].start < e && spans[k].end > open.start {
        pageEnd := spans[k].page;
      }
    }
    closed := [Chunking.Section(open.path, text[open.start..e], Some(open.page), Some(pageEnd), open.start, e)];
  }

  method ExtractSections(h: Headings, text: string, spans: seq<LineSpan>) returns (sections: seq<Section>)
    requires GoodSpans(text, spans)
    ensures forall k | 0 <= k < |spans| :: spans[k].start <= |text|
    ensures sections == CutSections(h, text, spans)
    ensures forall s :: s in sections <==> IsExtracted(h, text, spans, s)
  {
    hide LastPage, TrimEnd, NextContentStart, IsExtracted;
    forall s ensures s in CutSections(h, text, spans) <==> IsExtracted(h, text, spans, s) {
      SectionsAreExact(h, text, spans, s);
    }
    assert forall k | 0 <= k < |spans| :: Located(text, spans[k]);
    var root: seq<string> := [];
    var current: Option<OpenSection> := None;
    var hasBody := false;
    sections := [];
    for i := 0 to |spans|
      invariant Machine(root, current, hasBody, sections) == Run(h, text, spans, i)
    {
      var span := spans[i];
      if span.page !in h.contentsPages {
        var heading := h.normalizeClaim(span.text);
        var part, summary := h.isPart(heading), h.isSummary(heading);
        var claim := !h.isBoundary(heading) && h.isClaim(heading);
        var stop := part || summary || h.isBoundary(heading) || claim;
        if current.Some? && (stop || (hasBody && h.isOutline(heading))) {
          var closed := CloseSection(text, spans, current.value, span.start);
          sections := sections + closed;
          current, hasBody := None, false;
        } else if current.Some? && !h.isOutline(heading) {
          hasBody := true;
        }
        if part {
          root := [];
        } else if summary {
          root := [heading];
        } else if claim {
          current := Some(OpenSection(root + [heading], span.page, NextContentStart(text, span.end)));
          hasBody := false;
        }
      }
    }
    if current.Some? {
      var closed := CloseSection(text, spans, current.value, |text|);
      sections := sections + closed;
    }
  }

  method SplitRiskTableSections(h: Headings, text: string, spans: seq<LineSpan>, pages: seq<Page>,
                                sections: seq<Section>)
    returns (r: Option<seq<Section>>)
    ensures r == SplitRiskTables(h, text, spans, pages, sections)
  {
    hide RiskRows, RetainedSections, AggregateRisks, SectionsOnPage, ByStart;
    var aggregate := AggregateRisks(h, sections);
    if aggregate == [] {
      return Some(sections);
    }
    var split: seq<Section> := [];
    for k := 0 to |pages|
      invariant RiskPages(h, text, spans, aggregate, pages, k) == Some(split)
    {
      var parents := SectionsOnPage(aggregate, k + 1);
      if parents != [] {
        var found := SplitPage(h, text, spans, k + 1, parents, pages[k].rows);
        if found.None? {
          MissingStaysMissing(h, text, spans, aggregate, pages, k + 1);
          return None;
        }
        split := split + found.value;
      }
    }
    if split == [] {
      return Some(sections);
    }
    r := Some(Sort(RetainedSections(h, sections, split) + split, ByStart()));
  }

  lemma {:induction false} MissingStaysMissing(h: Headings, text: string, spans: seq<LineSpan>, aggregate: seq<Section>,
                                               pages: seq<Page>, k: nat)
    requires k <= |pages| && RiskPages(h, text, spans, aggregate, pages, k).None?
    ensures RiskPages(h, text, spans, aggregate, pages, |pages|).None?
    decreases |pages| - k
  {
    hide RiskRows, SectionsOnPage;
    if k < |pages| {
      MissingStaysMissing(h, text, spans, aggregate, pages, k + 1);
    }
  }

  method SplitPage(h: Headings, text: string, spans: seq<LineSpan>, page: nat, parents: seq<Section>,
                   rows: seq<seq<string>>)
    returns (found: Option<seq<Section>>)
    requires parents != []
    ensures var r := RiskRows(h, text, spans, page, parents, rows, |rows|);
            found == if r.Some? then Some(r.value.0) else None
  {
    hide ReadRow, RiskRow;
    var active, split: seq<Section> := true, [];
    for n := 0 to |rows|
      invariant RiskRows(h, text, spans, page, parents, rows, n) == Some((split, active))
    {
      var reading := ReadRow(h, rows[n], active);
      active := reading.active;
      if reading.named.Some? {
        match RiskRow(text, spans, page, parents, reading.named.value.0, reading.named.value.1)
        case NoSection =>
        case RiskSection(s) => split := split + [s];
        case CellSpanMissing =>
          MissingRowStaysMissing(h, text, spans, page, parents, rows, n + 1);
          return None;
      }
    }
    found := Some(split);
  }

  lemma {:induction false} MissingRowStaysMissing(h: Headings, text: string, spans: seq<LineSpan>, page: nat,
                                                  parents: seq<Section>, rows: seq<seq<string>>, n: nat)
    requires parents != [] && n <= |rows| && RiskRows(h, text, spans, page, parents, rows, n).None?
    ensures RiskRows(h, text, spans, page, parents, rows, |rows|).None?
    decreases |rows| - n
  {
    hide ReadRow, RiskRow;
    if n < |rows| {
      MissingRowStaysMissing(h, text, spans, page, parents, rows, n + 1);
    }
  }
}
