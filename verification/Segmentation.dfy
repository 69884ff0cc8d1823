/** Semantic ranges of a section text and their division into units that fit a token budget. */
module Segmentation {
  import opened Sequences
  import opened Text

  datatype Range = Range(start: nat, end: nat, bullet: bool)
  datatype Unit = Unit(start: nat, end: nat, indivisible: bool)

  // ----- what the segmentation computes -----

  /** Index just after the line that begins at `i`; "\r\n" ends one line, not two. */
  function LineEnd(text: string, i: nat): (j: nat)
    requires i < |text|
    ensures i < j <= |text|
    ensures j == |text| || IsLineBreak(text[j - 1])
    decreases |text| - i
  {
    if IsLineBreak(text[i]) then
      if text[i] == '\r' && i + 1 < |text| && text[i + 1] == '\n' then i + 2 else i + 1
    else if i + 1 == |text| then i + 1
    else LineEnd(text, i + 1)
  }

  /** Offsets at or after `offset` at which a new semantic range begins. */
  function Starts(text: string, offset: nat, afterBlank: bool, isBullet: string -> bool): seq<nat>
    requires offset <= |text|
    decreases |text| - offset
  {
    if offset == |text| then []
    else
      var next := LineEnd(text, offset);
      var line := text[offset..next];
      if Blank(line) then Starts(text, next, true, isBullet)
      else if offset > 0 && (afterBlank || isBullet(line)) then
        [offset] + Starts(text, next, false, isBullet)
      else Starts(text, next, false, isBullet)
  }

  /** The text from the k-th start to the next one, or to the end of the text. */
  function RangeAt(text: string, starts: seq<nat>, k: nat, isBullet: string -> bool): Range
    requires k < |starts|
  {
    var end := if k + 1 < |starts| then starts[k + 1] else |text|;
    Range(starts[k], end, isBullet(Slice(text, starts[k], end)))
  }

  /** The ranges of the first `n` starts, leaving out the blank ones. */
  function RangesUpTo(text: string, starts: seq<nat>, n: nat, isBullet: string -> bool): seq<Range>
    requires n <= |starts|
  {
    if n == 0 then []
    else
      var r := RangeAt(text, starts, n - 1, isBullet);
      RangesUpTo(text, starts, n - 1, isBullet) + (if Blank(Slice(text, r.start, r.end)) then [] else [r])
  }

  function SemanticRanges(text: string, isBullet: string -> bool): seq<Range> {
    var starts := [0] + Starts(text, 0, false, isBullet);
    RangesUpTo(text, starts, |starts|, isBullet)
  }

  function SkipSpace(text: string, i: nat, end: nat): (j: nat)
    requires i <= end <= |text|
    ensures i <= j <= end
    ensures Blank(text[i..j])
    ensures j < end ==> !IsSpace(text[j])
    decreases end - i
  {
    if i < end && IsSpace(text[i]) then SkipSpace(text, i + 1, end) else i
  }

  function SkipWord(text: string, i: nat, end: nat): (j: nat)
    requires i <= end <= |text|
    ensures i <= j <= end
    ensures i < end && !IsSpace(text[i]) ==> i < j
    decreases end - i
  {
    if i < end && !IsSpace(text[i]) then SkipWord(text, i + 1, end) else i
  }

  /** End of the match of \S+\s* that begins at the non-space position `i`. */
  function WordEnd(text: string, i: nat, end: nat): (j: nat)
    requires i < end <= |text| && !IsSpace(text[i])
    ensures i < j <= end
    ensures j < end ==> !IsSpace(text[j])
  {
    SkipSpace(text, SkipWord(text, i, end), end)
  }

  /** What one word does to the part that begins at `current`: the units cut off, and where the next
      part begins. */
  function CutAtWord(text: string, current: nat, wordStart: nat, wordEnd: nat, count: string -> nat,
                     targetMax: nat): (r: (seq<Unit>, nat))
    requires current <= wordStart < wordEnd <= |text|
    ensures r.1 == current || r.1 == wordStart || r.1 == wordEnd
  {
    if count(Slice(text, current, wordEnd)) <= targetMax then ([], current)
    else
      var head := if current < wordStart then [Unit(current, wordStart, false)] else [];
      if count(Slice(text, wordStart, wordEnd)) > targetMax then (head + [Unit(wordStart, wordEnd, true)], wordEnd)
      else (head, wordStart)
  }

  /** Greedy units of text[current..end], where the next word is sought from `pos`. */
  function WordUnits(text: string, current: nat, pos: nat, end: nat, count: string -> nat, targetMax: nat): seq<Unit>
    requires current <= pos <= end <= |text|
    decreases end - pos
  {
    var wordStart := SkipSpace(text, pos, end);
    if wordStart == end then
      if current < end then [Unit(current, end, false)] else []
    else
      var wordEnd := WordEnd(text, wordStart, end);
      var (cut, next) := CutAtWord(text, current, wordStart, wordEnd, count, targetMax);
      cut + WordUnits(text, next, wordEnd, end, count, targetMax)
  }

  function WhitespaceUnits(text: string, start: nat, end: nat, count: string -> nat, targetMax: nat): seq<Unit>
    requires start <= end <= |text|
  {
    if SkipSpace(text, start, end) == end then [Unit(start, end, true)]
    else WordUnits(text, start, start, end, count, targetMax)
  }

  /** The empty match of (?<=[.!?])(?=\s) at position `p`. */
  predicate IsSentenceBreak(text: string, p: nat) {
    0 < p < |text| && text[p - 1] in ".!?" && IsSpace(text[p])
  }

  function NextBreak(text: string, p: nat, end: nat): (b: nat)
    requires p <= end <= |text|
    ensures p <= b <= end
    ensures b < end ==> IsSentenceBreak(text, b)
    ensures forall q | p <= q < b :: !IsSentenceBreak(text, q)
    decreases end - p
  {
    if p == end || IsSentenceBreak(text, p) then p else NextBreak(text, p + 1, end)
  }

  function OneSentence(text: string, start: nat, end: nat, count: string -> nat, targetMax: nat): seq<Unit>
    requires start <= end <= |text|
  {
    if count(Slice(text, start, end)) <= targetMax then [Unit(start, end, false)]
    else WhitespaceUnits(text, start, end, count, targetMax)
  }

  /** Units of the sentences of text[start..end], breaks being sought from `from`. */
  function SentenceUnits(text: string, start: nat, from: nat, end: nat, count: string -> nat, targetMax: nat): seq<Unit>
    requires start <= from <= end <= |text|
    decreases end - from
  {
    var b := NextBreak(text, from, end);
    OneSentence(text, start, b, count, targetMax)
    + (if b == end then [] else SentenceUnits(text, b, b + 1, end, count, targetMax))
  }

  function SemanticUnits(text: string, start: nat, end: nat, bullet: bool, count: string -> nat,
                         targetMax: nat): seq<Unit>
    requires start <= end <= |text|
  {
    if count(Slice(text, start, end)) <= targetMax then [Unit(start, end, false)]
    else if bullet then [Unit(start, end, true)]
    else SentenceUnits(text, start, start, end, count, targetMax)
  }

  // ----- what it guarantees -----

  /** Consecutive nonempty units. */
  ghost predicate Chain(units: seq<Unit>) {
    && (forall i | 0 <= i < |units| :: units[i].start < units[i].end)
    && (forall i, j | 0 <= i < j < |units| ::
          units[i].end <= units[j].start && (j == i + 1 ==> units[i].end == units[j].start))
  }

  /** The units are adjacent, nonempty and cover exactly [from, to). */
  ghost predicate Tiles(units: seq<Unit>, from: nat, to: nat) {
    && Chain(units)
    && (if units == [] then from == to else units[0].start == from && units[|units| - 1].end == to)
  }

  ghost predicate WithinBudget(text: string, units: seq<Unit>, count: string -> nat, targetMax: nat) {
    forall i | 0 <= i < |units| ::
      units[i].indivisible || count(Slice(text, units[i].start, units[i].end)) <= targetMax
  }

  /** Position `p` comes just after a line break and opens a line that holds text. */
  ghost predicate OpensLine(text: string, p: nat) {
    0 < p < |text| && IsLineBreak(text[p - 1]) && !Blank(text[p..LineEnd(text, p)])
  }

  /** Line openings from `from` on, each after the end of the line that the one before it opens. */
  ghost predicate GoodStarts(text: string, starts: seq<nat>, from: nat) {
    && (forall k | 0 <= k < |starts| :: from <= starts[k] && OpensLine(text, starts[k]))
    && (forall j, k | 0 <= j < k < |starts| :: LineEnd(text, starts[j]) <= starts[k])
  }

  lemma {:induction false} StartsAreGood(text: string, offset: nat, afterBlank: bool, isBullet: string -> bool)
    requires offset <= |text|
    requires offset == 0 || offset == |text| || IsLineBreak(text[offset - 1])
    ensures GoodStarts(text, Starts(text, offset, afterBlank, isBullet), offset)
    decreases |text| - offset
  {
    hide IsLineBreak, GoodStarts, Blank;
    if offset == |text| {
      NoStarts(text, offset);
    } else {
      var next := LineEnd(text, offset);
      var blank := Blank(text[offset..next]);
      StartsAreGood(text, next, blank, isBullet);
      var later := Starts(text, next, blank, isBullet);
      if offset > 0 && !blank && (afterBlank || isBullet(text[offset..next])) {
        GoodStartsCons(text, offset, later);
      } else {
        GoodStartsEarlier(text, later, next, offset);
      }
    }
  }

  lemma {:induction false} NoStarts(text: string, from: nat)
    ensures GoodStarts(text, [], from)
  {}

  lemma {:induction false} GoodStartsCons(text: string, offset: nat, later: seq<nat>)
    requires OpensLine(text, offset) && GoodStarts(text, later, LineEnd(text, offset))
    ensures GoodStarts(text, [offset] + later, offset)
  {
    hide IsLineBreak, Blank;
  }

  lemma {:induction false} GoodStartsEarlier(text: string, starts: seq<nat>, from: nat, earlier: nat)
    requires GoodStarts(text, starts, from) && earlier <= from
    ensures GoodStarts(text, starts, earlier)
  {
    hide OpensLine;
  }

  /** A kept range: it holds text, and its flag says whether it reads as a bullet. */
  ghost predicate ProperRange(text: string, r: Range, isBullet: string -> bool) {
    && r.start < r.end <= |text| && !Blank(text[r.start..r.end])
    && (r.start == 0 || IsLineBreak(text[r.start - 1]))
    && (r.bullet <==> isBullet(text[r.start..r.end]))
  }

  lemma {:induction false} HoldsText(text: string, p: nat, end: nat)
    requires OpensLine(text, p) && LineEnd(text, p) <= end <= |text|
    ensures !Blank(text[p..end])
  {
    var line := text[p..LineEnd(text, p)];
    var k :| 0 <= k < |line| && !IsSpace(line[k]);
    assert text[p..end][k] == line[k];
  }

  lemma {:induction false} GoodStartIsProper(text: string, starts: seq<nat>, k: nat, isBullet: string -> bool)
    requires 0 < k < |starts| && GoodStarts(text, starts[1..], 0)
    ensures ProperRange(text, RangeAt(text, starts, k, isBullet), isBullet)
  {
    hide LineEnd, IsLineBreak, Blank;
    var later := starts[1..];
    assert starts[k] == later[k - 1] && OpensLine(text, later[k - 1]);
    assert k + 1 < |starts| ==> starts[k + 1] == later[k] && OpensLine(text, later[k]);
    HoldsText(text, starts[k], RangeAt(text, starts, k, isBullet).end);
  }

  /** No range that opens at a good start is left out; only the first one may be. */
  lemma {:induction false} GoodStartsKeepEveryRange(text: string, starts: seq<nat>, n: nat, isBullet: string -> bool)
    requires 0 < n <= |starts| && GoodStarts(text, starts[1..], 0)
    ensures var first := RangesUpTo(text, starts, 1, isBullet);
            var ranges := RangesUpTo(text, starts, n, isBullet);
            && |ranges| == |first| + n - 1 && first <= ranges
            && forall i | 0 < i < n :: ranges[|first| + i - 1] == RangeAt(text, starts, i, isBullet)
  {
    hide GoodStarts, Blank, IsLineBreak, IsSpace, RangeAt;
    if n > 1 {
      LastRangeIsKept(text, starts, n, isBullet);
      GoodStartsKeepEveryRange(text, starts, n - 1, isBullet);
    }
  }

  lemma {:induction false} LastRangeIsKept(text: string, starts: seq<nat>, n: nat, isBullet: string -> bool)
    requires 1 < n <= |starts| && GoodStarts(text, starts[1..], 0)
    ensures RangesUpTo(text, starts, n, isBullet) == RangesUpTo(text, starts, n - 1,
                                                                isBullet) + [RangeAt(text, starts, n - 1, isBullet)]
  {
    GoodStartIsProper(text, starts, n - 1, isBullet);
    var r := RangeAt(text, starts, n - 1, isBullet);
    assert Slice(text, r.start, r.end) == text[r.start..r.end];
    hide GoodStarts, RangeAt, IsSpace;
  }

  /** Ranges that hold text, follow one another without a gap and end with the text. */
  ghost predicate CoverToEnd(text: string, ranges: seq<Range>, from: nat, isBullet: string -> bool) {
    && (forall k | 0 <= k < |ranges| :: ProperRange(text, ranges[k], isBullet))
    && (forall j, k | 0 <= j < |ranges| && k == j + 1 < |ranges| :: ranges[j].end == ranges[k].start)
    && (if ranges == [] then from == |text| else ranges[0].start == from && ranges[|ranges| - 1].end == |text|)
  }

  /** Offset of the first kept range; everything before it is blank. */
  function FirstKept(text: string, isBullet: string -> bool): nat {
    var ranges := SemanticRanges(text, isBullet);
    if ranges == [] then |text| else ranges[0].start
  }

  lemma {:induction false} PrependRange(text: string, r: Range, later: seq<Range>, isBullet: string -> bool)
    requires ProperRange(text, r, isBullet) && CoverToEnd(text, later, r.end, isBullet)
    ensures CoverToEnd(text, [r] + later, r.start, isBullet)
  {
    hide ProperRange;
  }

  lemma {:induction false} CoverBegins(text: string, ranges: seq<Range>, from: nat, isBullet: string -> bool)
    requires CoverToEnd(text, ranges, from, isBullet)
    ensures from == if ranges == [] then |text| else ranges[0].start
  {
    hide ProperRange;
  }

  /** The line openings of a text, its start included. */
  function AllStarts(text: string, isBullet: string -> bool): seq<nat> {
    [0] + Starts(text, 0, false, isBullet)
  }

  lemma {:induction false} AllStartsAreGood(text: string, isBullet: string -> bool)
    ensures var starts := AllStarts(text, isBullet);
      starts[0] == 0 && GoodStarts(text, starts[1..], 0) && (|starts| > 1 ==> 0 < starts[1] <= |text|)
  {
    hide Starts, Blank, LineEnd, IsLineBreak;
    var starts := AllStarts(text, isBullet);
    StartsAreGood(text, 0, false, isBullet);
    var later := starts[1..];
    assert later == Starts(text, 0, false, isBullet);
    assert |starts| > 1 ==> OpensLine(text, later[0]) && starts[1] == later[0];
  }

  /** For every text the kept ranges are adjacent, hold text, begin at the text's start or just after a
      line break, and cover everything but a blank prefix. */
  lemma {:induction false} SemanticRangesCoverText(text: string, isBullet: string -> bool)
    ensures FirstKept(text, isBullet) <= |text| && Blank(text[..FirstKept(text, isBullet)])
    ensures CoverToEnd(text, SemanticRanges(text, isBullet), FirstKept(text, isBullet), isBullet)
  {
    var starts := AllStarts(text, isBullet);
    AllStartsAreGood(text, isBullet);
    LaterRangesCover(text, starts, isBullet);
    FirstRange(text, starts, isBullet);
    hide Starts, Blank, GoodStarts, ProperRange, CoverToEnd;
    var r := RangeAt(text, starts, 0, isBullet);
    var first, ranges := RangesUpTo(text, starts, 1, isBullet), RangesUpTo(text, starts, |starts|, isBullet);
    hide RangeAt, RangesUpTo;
    CoverFromFirst(text, first, ranges, r, isBullet);
  }

  lemma {:induction false} CoverFromFirst(text: string, first: seq<Range>, ranges: seq<Range>, r: Range,
                                          isBullet: string -> bool)
    requires r.start == 0 && r.end <= |text| && Blank(text[..0])
    requires first <= ranges && CoverToEnd(text, ranges[|first|..], r.end, isBullet)
    requires first == if Blank(text[..r.end]) then [] else [r]
    requires !Blank(text[..r.end]) ==> ProperRange(text, r, isBullet)
    ensures var from := if ranges == [] then |text| else ranges[0].start;
      from <= |text| && Blank(text[..from]) && CoverToEnd(text, ranges, from, isBullet)
  {
    hide Blank, ProperRange, CoverToEnd;
    if Blank(text[..r.end]) {
      assert ranges[0..] == ranges;
      CoverBegins(text, ranges, r.end, isBullet);
    } else {
      assert ranges == [r] + ranges[1..];
      PrependRange(text, r, ranges[1..], isBullet);
      CoverBegins(text, ranges, 0, isBullet);
    }
  }

  /** The first range begins the text; it is kept exactly when it is not blank. */
  lemma {:induction false} FirstRange(text: string, starts: seq<nat>, isBullet: string -> bool)
    requires starts != [] && starts[0] == 0
    requires |starts| > 1 ==> 0 < starts[1] <= |text|
    ensures var r := RangeAt(text, starts, 0, isBullet);
            && r.start == 0 && r.end <= |text| && Blank(text[..0])
            && RangesUpTo(text, starts, 1, isBullet) == (if Blank(text[..r.end]) then [] else [r])
            && (!Blank(text[..r.end]) ==> ProperRange(text, r, isBullet))
  {
    hide IsSpace, IsLineBreak;
    var r := RangeAt(text, starts, 0, isBullet);
    assert Slice(text, 0, r.end) == text[..r.end] == text[0..r.end];
  }

  lemma {:induction false} LaterRangesCover(text: string, starts: seq<nat>, isBullet: string -> bool)
    requires starts != [] && GoodStarts(text, starts[1..], 0)
    ensures var first := RangesUpTo(text, starts, 1, isBullet);
            var ranges := RangesUpTo(text, starts, |starts|, isBullet);
            first <= ranges && CoverToEnd(text, ranges[|first|..], RangeAt(text, starts, 0, isBullet).end, isBullet)
  {
    hide GoodStarts, ProperRange, Slice;
    GoodStartsKeepEveryRange(text, starts, |starts|, isBullet);
    var first, ranges := RangesUpTo(text, starts, 1, isBullet), RangesUpTo(text, starts, |starts|, isBullet);
    var later := ranges[|first|..];
    forall k | 0 <= k < |later|
      ensures later[k] == RangeAt(text, starts, k + 1, isBullet) && ProperRange(text, later[k], isBullet)
    {
      assert later[k] == ranges[|first| + (k + 1) - 1];
      GoodStartIsProper(text, starts, k + 1, isBullet);
    }
  }

  // ----- where ranges open -----

  /** Position `p` begins a line: it is the text's start, or it comes just after a line break and does not
      stand inside a "\r\n". */
  predicate BeginsLine(text: string, p: nat) {
    && p < |text|
    && (p == 0 || (IsLineBreak(text[p - 1]) && !(text[p - 1] == '\r' && text[p] == '\n')))
  }

  /** text[p..q] is one line with its break: no other line begins inside it. */
  ghost predicate IsLine(text: string, p: nat, q: nat) {
    && BeginsLine(text, p) && p < q <= |text|
    && (q == |text| || BeginsLine(text, q))
    && forall m: nat | p < m < q :: !BeginsLine(text, m)
  }

  lemma {:induction false} NextLineBegins(text: string, i: nat)
    requires i < |text|
    ensures var j := LineEnd(text, i);
      (j == |text| || BeginsLine(text, j)) && forall m: nat | i < m < j :: !BeginsLine(text, m)
    decreases |text| - i
  {
    if !IsLineBreak(text[i]) && i + 1 < |text| {
      NextLineBegins(text, i + 1);
    }
  }

  /** The line at `p` ends at the next line beginning, or with the text. */
  lemma {:induction false} LineEndIsExact(text: string, p: nat, q: nat)
    requires BeginsLine(text, p)
    ensures IsLine(text, p, q) <==> q == LineEnd(text, p)
  {
    NextLineBegins(text, p);
    hide LineEnd, IsLineBreak;
    var end := LineEnd(text, p);
    assert IsLine(text, p, end);
    if IsLine(text, p, q) {
      assert q < end ==> !BeginsLine(text, q);
    }
  }

  /** Two lines with a common end are one line. */
  lemma {:induction false} OneLineBefore(text: string, o: nat, q: nat, p: nat)
    requires IsLine(text, o, p) && IsLine(text, q, p)
    ensures o == q
  {
    hide BeginsLine;
  }

  /** `o` and `q` are the neighbours of `p`: text[o..p] is the line before `p`, text[p..q] the line at `p`.
      That line holds text, and it is a bullet or the line before it is blank. */
  ghost predicate OpensBetween(text: string, isBullet: string -> bool, o: nat, p: nat, q: nat) {
    && IsLine(text, o, p) && IsLine(text, p, q)
    && !Blank(text[p..q])
    && (Blank(text[o..p]) || isBullet(text[p..q]))
  }

  ghost predicate OpensRange(text: string, isBullet: string -> bool, p: nat) {
    exists o: nat, q: nat :: OpensBetween(text, isBullet, o, p, q)
  }

  /** What the scan knows at `offset`: it begins a line or ends the text, and if it is not the text's start
      then `o` begins the line before it. */
  ghost predicate ScanPoint(text: string, o: nat, offset: nat, afterBlank: bool) {
    && offset <= |text| && (offset == |text| || BeginsLine(text, offset))
    && (if offset == 0 then !afterBlank else IsLine(text, o, offset) && (afterBlank <==> Blank(text[o..offset])))
  }

  lemma {:induction false} OpensHereExactly(text: string, isBullet: string -> bool, o: nat, p: nat, afterBlank: bool)
    requires ScanPoint(text, o, p, afterBlank) && p < |text|
    ensures IsLine(text, p, LineEnd(text, p))
    ensures var line := text[p..LineEnd(text, p)];
      OpensRange(text, isBullet, p) <==> 0 < p && !Blank(line) && (afterBlank || isBullet(line))
  {
    hide IsLineBreak, BeginsLine, LineEnd, IsSpace, Blank;
    var q := LineEnd(text, p);
    LineEndIsExact(text, p, q);
    if OpensRange(text, isBullet, p) {
      var o', q' :| OpensBetween(text, isBullet, o', p, q');
      LineEndIsExact(text, p, q');
      OneLineBefore(text, o, o', p);
    }
    if 0 < p && !Blank(text[p..q]) && (afterBlank || isBullet(text[p..q])) {
      assert OpensBetween(text, isBullet, o, p, q);
    }
  }

  lemma {:induction false} InsideLineOpensNothing(text: string, isBullet: string -> bool, p: nat, q: nat, m: nat)
    requires IsLine(text, p, q) && p < m < q
    ensures !OpensRange(text, isBullet, m)
  {
    hide BeginsLine, Blank;
  }

  lemma {:induction false} StartsFrom(text: string, isBullet: string -> bool, o: nat, offset: nat, afterBlank: bool,
                                      p: nat)
    requires ScanPoint(text, o, offset, afterBlank)
    ensures p in Starts(text, offset, afterBlank, isBullet) <==> offset <= p && OpensRange(text, isBullet, p)
    decreases |text| - offset
  {
    hide IsLineBreak, BeginsLine, LineEnd, Blank, OpensRange;
    if offset == |text| {
      assert OpensRange(text, isBullet, p) ==> p < |text| by { OpensInText(text, isBullet, p); }
    } else {
      OpensHereExactly(text, isBullet, o, offset, afterBlank);
      var next := LineEnd(text, offset);
      StartsFrom(text, isBullet, offset, next, Blank(text[offset..next]), p);
      if offset < p < next {
        InsideLineOpensNothing(text, isBullet, offset, next, p);
      }
    }
  }

  lemma {:induction false} OpensInText(text: string, isBullet: string -> bool, p: nat)
    ensures OpensRange(text, isBullet, p) ==> 0 < p < |text|
  {
    hide IsLineBreak, Blank;
  }

  /** A position of the text opens a range exactly when it begins a line that holds text and either the line
      before it is blank or the line is a bullet. */
  lemma {:induction false} StartsAreExact(text: string, isBullet: string -> bool, p: nat)
    ensures p in Starts(text, 0, false, isBullet) <==> OpensRange(text, isBullet, p)
  {
    hide Starts, OpensRange;
    StartsFrom(text, isBullet, 0, 0, false, p);
  }

  // ----- which ranges there are -----

  /** The range reaches from the text's start or an opening to the next opening or the text's end, no
      opening lies inside it, it holds text, and its flag says whether it reads as a bullet. */
  ghost predicate IsRange(text: string, isBullet: string -> bool, r: Range) {
    && r.start < r.end <= |text| && !Blank(text[r.start..r.end])
    && (r.start == 0 || OpensRange(text, isBullet, r.start))
    && (r.end == |text| || OpensRange(text, isBullet, r.end))
    && (forall p: nat | r.start < p < r.end :: !OpensRange(text, isBullet, p))
    && (r.bullet <==> isBullet(text[r.start..r.end]))
  }

  lemma {:induction false} OpeningsAreStarts(text: string, isBullet: string -> bool)
    ensures var starts := AllStarts(text, isBullet);
      && (forall p: nat :: p in starts <==> p == 0 || OpensRange(text, isBullet, p))
      && (forall j, k | 0 <= j < k < |starts| :: starts[j] < starts[k])
  {
    hide Starts, OpensRange, LineEnd, Blank, IsLineBreak, IsSpace;
    var starts, later := AllStarts(text, isBullet), Starts(text, 0, false, isBullet);
    assert starts == [0] + later;
    forall p: nat ensures p in starts <==> p == 0 || OpensRange(text, isBullet, p) {
      StartsAreExact(text, isBullet, p);
    }
    StartsAreGood(text, 0, false, isBullet);
    forall j, k | 0 <= j < k < |starts| ensures starts[j] < starts[k] {
      assert starts[k] == later[k - 1] && OpensLine(text, later[k - 1]);
      if j > 0 {
        assert starts[j] == later[j - 1] && OpensLine(text, later[j - 1]);
      }
    }
  }

  lemma {:induction false} RangesUpToMembers(text: string, starts: seq<nat>, n: nat, isBullet: string -> bool, r: Range)
    requires n <= |starts|
    ensures r in RangesUpTo(text, starts, n, isBullet)
       <==> exists k: nat :: k < n && r == RangeAt(text, starts, k, isBullet) && !Blank(Slice(text, r.start, r.end))
  {
    hide RangeAt, Blank, Slice;
    if n > 0 {
      RangesUpToMembers(text, starts, n - 1, isBullet, r);
    }
  }

  lemma {:induction false} NothingBetween(starts: seq<nat>, k: nat, p: nat)
    requires forall i, j | 0 <= i < j < |starts| :: starts[i] < starts[j]
    requires k < |starts| && starts[k] < p && (k + 1 < |starts| ==> p < starts[k + 1])
    ensures p !in starts
  {
    forall i | 0 <= i < |starts| ensures starts[i] != p {
      assert i < k ==> starts[i] < starts[k];
      assert k + 1 < i ==> starts[k + 1] < starts[i];
    }
  }

  lemma {:induction false} StretchIsRange(text: string, isBullet: string -> bool, k: nat)
    requires k < |AllStarts(text, isBullet)|
    ensures var r := RangeAt(text, AllStarts(text, isBullet), k, isBullet);
      !Blank(Slice(text, r.start, r.end)) <==> IsRange(text, isBullet, r)
  {
    hide AllStarts, OpensRange, IsSpace;
    OpeningsAreStarts(text, isBullet);
    var starts := AllStarts(text, isBullet);
    var r := RangeAt(text, starts, k, isBullet);
    assert r.start in starts;
    OpensInText(text, isBullet, r.start);
    assert r.end == |text| || r.end in starts;
    OpensInText(text, isBullet, r.end);
    forall p: nat | r.start < p < r.end ensures !OpensRange(text, isBullet, p) {
      NothingBetween(starts, k, p);
    }
  }

  lemma {:induction false} RangeIsStretch(text: string, isBullet: string -> bool, r: Range) returns (k: nat)
    requires IsRange(text, isBullet, r)
    ensures k < |AllStarts(text, isBullet)| && r == RangeAt(text, AllStarts(text, isBullet), k, isBullet)
  {
    hide AllStarts, OpensRange, IsSpace;
    OpeningsAreStarts(text, isBullet);
    var starts := AllStarts(text, isBullet);
    assert r.start in starts;
    k :| 0 <= k < |starts| && starts[k] == r.start;
    var end := RangeAt(text, starts, k, isBullet).end;
    assert k + 1 < |starts| ==> end in starts && OpensRange(text, isBullet, end);
    OpensInText(text, isBullet, end);
    if r.end < end {
      NothingBetween(starts, k, r.end);
    }
  }

  /** The kept ranges are all the ranges of the text and no others, in the order of the text. */
  lemma {:induction false} RangesAreExact(text: string, isBullet: string -> bool)
    ensures forall r :: r in SemanticRanges(text, isBullet) <==> IsRange(text, isBullet, r)
    ensures var ranges := SemanticRanges(text, isBullet);
      forall j, k | 0 <= j < k < |ranges| :: ranges[j].end <= ranges[k].start
  {
    hide IsRange, Blank, Slice, Starts, RangesUpTo;
    var starts := AllStarts(text, isBullet);
    forall r ensures r in SemanticRanges(text, isBullet) <==> IsRange(text, isBullet, r) {
      hide RangeAt;
      RangesUpToMembers(text, starts, |starts|, isBullet, r);
      if r in SemanticRanges(text, isBullet) {
        var k: nat :| k < |starts| && r == RangeAt(text, starts, k, isBullet) && !Blank(Slice(text, r.start, r.end));
        StretchIsRange(text, isBullet, k);
      }
      if IsRange(text, isBullet, r) {
        var k := RangeIsStretch(text, isBullet, r);
        StretchIsRange(text, isBullet, k);
      }
    }
    var ranges := SemanticRanges(text, isBullet);
    SemanticRangesCoverText(text, isBullet);
    forall j, k | 0 <= j < k < |ranges| ensures ranges[j].end <= ranges[k].start {
      RangesInOrder(text, isBullet, ranges, FirstKept(text, isBullet), j, k);
    }
  }

  lemma {:induction false} RangesInOrder(text: string, isBullet: string -> bool, ranges: seq<Range>, from: nat, j: nat,
                                         k: nat)
    requires CoverToEnd(text, ranges, from, isBullet) && j < k < |ranges|
    ensures ranges[j].end <= ranges[k].start
    decreases k - j
  {
    if j + 1 < k {
      RangesInOrder(text, isBullet, ranges, from, j + 1, k);
      assert ProperRange(text, ranges[j + 1], isBullet);
    }
    hide ProperRange;
  }

  lemma {:induction false} TilesJoin(a: seq<Unit>, b: seq<Unit>, from: nat, mid: nat, to: nat)
    requires Tiles(a, from, mid) && Tiles(b, mid, to)
    ensures Tiles(a + b, from, to)
  {}

  lemma {:induction false} WordUnitsTile(text: string, current: nat, pos: nat, end: nat, count: string -> nat,
                                         targetMax: nat)
    requires current <= pos <= end <= |text|
    ensures Tiles(WordUnits(text, current, pos, end, count, targetMax), current, end)
    decreases end - pos
  {
    hide Slice, WordEnd, IsSpace;
    var wordStart := SkipSpace(text, pos, end);
    if wordStart < end {
      var wordEnd := WordEnd(text, wordStart, end);
      var (cut, next) := CutAtWord(text, current, wordStart, wordEnd, count, targetMax);
      WordUnitsTile(text, next, wordEnd, end, count, targetMax);
      TilesJoin(cut, WordUnits(text, next, wordEnd, end, count, targetMax), current, next, end);
    }
  }

  /** Between two words the part accumulated so far fits, so every unit that is cut off fits. */
  lemma {:induction false} WordUnitsFit(text: string, current: nat, pos: nat, end: nat, count: string -> nat,
                                        targetMax: nat)
    requires current <= pos <= end <= |text|
    requires CountsBlankAsZero(count)
    requires current == pos || pos == end || !IsSpace(text[pos])
    requires count(Slice(text, current, pos)) <= targetMax
    ensures WithinBudget(text, WordUnits(text, current, pos, end, count, targetMax), count, targetMax)
    decreases end - pos
  {
    hide WordEnd, IsSpace;
    var wordStart := SkipSpace(text, pos, end);
    assert count(Slice(text, current, wordStart)) <= targetMax;
    if wordStart < end {
      var wordEnd := WordEnd(text, wordStart, end);
      assert Slice(text, wordEnd, wordEnd) == "" && Blank("");
      var (cut, next) := CutAtWord(text, current, wordStart, wordEnd, count, targetMax);
      assert WithinBudget(text, cut, count, targetMax) && count(Slice(text, next, wordEnd)) <= targetMax;
      WordUnitsFit(text, next, wordEnd, end, count, targetMax);
    }
  }

  lemma {:induction false} OneSentenceTiles(text: string, start: nat, end: nat, count: string -> nat, targetMax: nat)
    requires start < end <= |text|
    ensures Tiles(OneSentence(text, start, end, count, targetMax), start, end)
  {
    WordUnitsTile(text, start, start, end, count, targetMax);
  }

  lemma {:induction false} SentenceUnitsTile(text: string, start: nat, from: nat, end: nat, count: string -> nat,
                                             targetMax: nat)
    requires start <= from <= end <= |text| && start < end
    requires start < from || !IsSentenceBreak(text, start)
    ensures Tiles(SentenceUnits(text, start, from, end, count, targetMax), start, end)
    decreases end - from
  {
    hide OneSentence, IsSentenceBreak, NextBreak;
    var b := NextBreak(text, from, end);
    OneSentenceTiles(text, start, b, count, targetMax);
    if b < end {
      SentenceUnitsTile(text, b, b + 1, end, count, targetMax);
      TilesJoin(OneSentence(text, start, b, count, targetMax),
                SentenceUnits(text, b, b + 1, end, count, targetMax), start, b, end);
    }
  }

  lemma {:induction false} BudgetsJoin(text: string, a: seq<Unit>, b: seq<Unit>, count: string -> nat, targetMax: nat)
    requires WithinBudget(text, a, count, targetMax) && WithinBudget(text, b, count, targetMax)
    ensures WithinBudget(text, a + b, count, targetMax)
  {
    hide Slice;
  }

  lemma {:induction false} OneSentenceFits(text: string, start: nat, end: nat, count: string -> nat, targetMax: nat)
    requires start <= end <= |text| && CountsBlankAsZero(count)
    ensures WithinBudget(text, OneSentence(text, start, end, count, targetMax), count, targetMax)
  {
    assert Slice(text, start, start) == "" && Blank("");
    WordUnitsFit(text, start, start, end, count, targetMax);
    hide WordUnits, Slice, CountsBlankAsZero;
  }

  lemma {:induction false} SentenceUnitsFit(text: string, start: nat, from: nat, end: nat, count: string -> nat,
                                            targetMax: nat)
    requires start <= from <= end <= |text|
    requires CountsBlankAsZero(count)
    ensures WithinBudget(text, SentenceUnits(text, start, from, end, count, targetMax), count, targetMax)
    decreases end - from
  {
    hide OneSentence, IsSentenceBreak, NextBreak, WithinBudget, CountsBlankAsZero;
    var b := NextBreak(text, from, end);
    OneSentenceFits(text, start, b, count, targetMax);
    if b < end {
      SentenceUnitsFit(text, b, b + 1, end, count, targetMax);
      BudgetsJoin(text, OneSentence(text, start, b, count, targetMax),
                  SentenceUnits(text, b, b + 1, end, count, targetMax), count, targetMax);
    } else {
      assert SentenceUnits(text, start, from, end, count, targetMax) == OneSentence(text, start, b, count, targetMax);
    }
  }

  /** Splitting loses nothing: the units of a kept range tile it exactly and in order, whatever the counter,
      and every unit not marked indivisible is within the target for a counter that ignores blanks. */
  lemma {:induction false} RangeSplitsExactly(text: string, isBullet: string -> bool, k: nat, count: string -> nat,
                                              targetMax: nat)
    requires k < |SemanticRanges(text, isBullet)|
    ensures var r := SemanticRanges(text, isBullet)[k];
            && r.start < r.end <= |text|
            && Tiles(SemanticUnits(text, r.start, r.end, r.bullet, count, targetMax), r.start, r.end)
            && (CountsBlankAsZero(count) ==>
                  WithinBudget(text, SemanticUnits(text, r.start, r.end, r.bullet, count, targetMax), count, targetMax))
  {
    hide SentenceUnits;
    SemanticRangesCoverText(text, isBullet);
    var r := SemanticRanges(text, isBullet)[k];
    assert ProperRange(text, r, isBullet);
    assert !IsSentenceBreak(text, r.start);
    hide SemanticRanges, ProperRange, IsSentenceBreak;
    SentenceUnitsTile(text, r.start, r.start, r.end, count, targetMax);
    if CountsBlankAsZero(count) {
      SentenceUnitsFit(text, r.start, r.start, r.end, count, targetMax);
    }
  }

  // ----- which units a range is split into -----

  /** A part of text[start..end] may be cut at `p`: a word begins there, or the text to be split ends. */
  predicate IsCut(text: string, start: nat, p: nat, end: nat)
    requires end <= |text|
  {
    start < p <= end && (p == end || (!IsSpace(text[p]) && IsSpace(text[p - 1])))
  }

  /** `q` is the first cut after `p`. */
  ghost predicate NextCut(text: string, p: nat, q: nat, end: nat)
    requires end <= |text|
  {
    IsCut(text, p, q, end) && forall m: nat | p < m < q :: !IsCut(text, p, m, end)
  }

  ghost predicate Fits(text: string, from: nat, to: nat, count: string -> nat, targetMax: nat) {
    count(Slice(text, from, to)) <= targetMax
  }

  /** Every cut up to `to` gives a part from `from` that fits, leaving out blank parts. */
  ghost predicate CutsFit(text: string, from: nat, to: nat, end: nat, count: string -> nat, targetMax: nat)
    requires end <= |text|
  {
    forall p: nat | IsCut(text, from, p, end) && p <= to && !Blank(text[from..p]) ::
      Fits(text, from, p, count, targetMax)
  }

  /** A unit cut at words is either one word that does not fit, or as many words as fit and no more. */
  ghost predicate GreedyWord(text: string, u: Unit, end: nat, count: string -> nat, targetMax: nat)
    requires end <= |text|
  {
    && IsCut(text, u.start, u.end, end)
    && (if u.indivisible then
          !IsSpace(text[u.start]) && NextCut(text, u.start, u.end, end) && !Fits(text, u.start, u.end, count, targetMax)
        else
          && CutsFit(text, u.start, u.end, end, count, targetMax)
          && forall q: nat | NextCut(text, u.end, q, end) :: !Fits(text, u.start, q, count, targetMax))
  }

  /** text[a..b] is a sentence of text[start..end]: it begins and ends at a sentence break or with the text
      to be split, and no break lies inside it. */
  ghost predicate IsSentence(text: string, start: nat, end: nat, a: nat, b: nat) {
    && start <= a < b <= end
    && (a == start || IsSentenceBreak(text, a)) && (b == end || IsSentenceBreak(text, b))
    && forall p: nat | a < p < b :: !IsSentenceBreak(text, p)
  }

  /** A sentence that fits is one unit, and so is one without words; any other is cut at words. */
  ghost predicate SentenceUnit(text: string, u: Unit, a: nat, b: nat, count: string -> nat, targetMax: nat)
    requires a < b <= |text|
  {
    && a <= u.start < u.end <= b
    && (if Fits(text, a, b, count, targetMax) then u == Unit(a, b, false)
        else if Blank(text[a..b]) then u == Unit(a, b, true)
        else GreedyWord(text, u, b, count, targetMax))
  }

  ghost predicate InSentence(text: string, start: nat, end: nat, u: Unit, count: string -> nat, targetMax: nat)
    requires end <= |text|
  {
    exists a: nat, b: nat :: IsSentence(text, start, end, a, b) && SentenceUnit(text, u, a, b, count, targetMax)
  }

  ghost predicate AllInSentences(text: string, start: nat, end: nat, units: seq<Unit>, count: string -> nat,
                                 targetMax: nat)
    requires end <= |text|
  {
    forall i | 0 <= i < |units| :: InSentence(text, start, end, units[i], count, targetMax)
  }

  /** What the units of text[start..end] are: the whole if it fits or is a bullet, flagged in the second case;
      otherwise the units of its sentences, one after the other. */
  ghost predicate SplitRule(text: string, start: nat, end: nat, bullet: bool, count: string -> nat, targetMax: nat,
                            units: seq<Unit>)
    requires end <= |text|
  {
    if Fits(text, start, end, count, targetMax) then units == [Unit(start, end, false)]
    else if bullet then units == [Unit(start, end, true)]
    else Tiles(units, start, end) && AllInSentences(text, start, end, units, count, targetMax)
  }

  lemma {:induction false} SkipWordIsWord(text: string, i: nat, end: nat)
    requires i <= end <= |text|
    ensures var j := SkipWord(text, i, end);
      (forall m | i <= m < j :: !IsSpace(text[m])) && (j == end || IsSpace(text[j]))
    decreases end - i
  {
    hide IsSpace;
    if i < end && !IsSpace(text[i]) {
      SkipWordIsWord(text, i + 1, end);
    }
  }

  lemma {:induction false} WordEndIsNextCut(text: string, i: nat, end: nat)
    requires i < end <= |text| && !IsSpace(text[i])
    ensures NextCut(text, i, WordEnd(text, i, end), end)
  {
    hide IsSpace;
    SkipWordIsWord(text, i, end);
    var j := SkipWord(text, i, end);
    var k := SkipSpace(text, j, end);
    forall m | j <= m < k ensures IsSpace(text[m]) {
      assert text[m] == text[j..k][m - j];
    }
  }

  lemma {:induction false} BlankHasNoCut(text: string, i: nat, end: nat)
    requires i <= end <= |text|
    ensures var j := SkipSpace(text, i, end);
      && Blank(text[i..j]) && (i < j < end ==> NextCut(text, i, j, end))
      && forall m: nat | i < m < j :: !IsCut(text, i, m, end)
  {
    hide IsSpace;
    var j := SkipSpace(text, i, end);
    forall m | i <= m < j ensures IsSpace(text[m]) {
      assert text[m] == text[i..j][m - i];
    }
  }

  lemma {:induction false} OneNextCut(text: string, p: nat, q: nat, r: nat, end: nat)
    requires end <= |text| && NextCut(text, p, q, end) && NextCut(text, p, r, end)
    ensures q == r
  {
    hide IsSpace;
  }

  ghost predicate AllGreedy(text: string, units: seq<Unit>, end: nat, count: string -> nat, targetMax: nat)
    requires end <= |text|
  {
    forall i | 0 <= i < |units| :: GreedyWord(text, units[i], end, count, targetMax)
  }

  /** Between two words: the part from `current` to `pos` ends at a cut and has fitted so far. */
  ghost predicate Building(text: string, current: nat, pos: nat, end: nat, count: string -> nat, targetMax: nat) {
    && current <= pos <= end <= |text|
    && (pos == current || IsCut(text, current, pos, end))
    && (pos == end || !Blank(text[pos..end]))
    && CutsFit(text, current, pos, end, count, targetMax)
  }

  lemma {:induction false} WordFits(text: string, current: nat, pos: nat, end: nat, count: string -> nat,
                                    targetMax: nat)
    requires Building(text, current, pos, end, count, targetMax) && pos < end
    ensures var wordStart := SkipSpace(text, pos, end);
      && wordStart < end && (pos < wordStart ==> pos == current && Blank(text[current..wordStart]))
      && CutsFit(text, current, wordStart, end, count, targetMax)
  {
    hide IsSpace, Fits;
    BlankHasNoCut(text, pos, end);
  }

  lemma {:induction false} OneWordFurther(text: string, current: nat, wordStart: nat, wordEnd: nat, end: nat,
                                          count: string -> nat, targetMax: nat)
    requires current <= wordStart < end <= |text| && !IsSpace(text[wordStart])
    requires NextCut(text, wordStart, wordEnd, end) && CutsFit(text, current, wordStart, end, count, targetMax)
    requires Fits(text, current, wordEnd, count, targetMax)
    ensures Building(text, current, wordEnd, end, count, targetMax)
  {
    hide Fits, IsSpace;
    assert wordEnd < end ==> text[wordEnd..end][0] == text[wordEnd];
    forall p: nat | IsCut(text, current, p, end) && p <= wordEnd && !Blank(text[current..p])
      ensures Fits(text, current, p, count, targetMax)
    {
      assert wordStart < p < wordEnd ==> !IsCut(text, wordStart, p, end);
    }
  }

  lemma {:induction false} CutAtWordIsGreedy(text: string, current: nat, wordStart: nat, wordEnd: nat, end: nat,
                                             count: string -> nat, targetMax: nat)
    requires current <= wordStart < end <= |text| && !IsSpace(text[wordStart])
    requires current == wordStart || IsCut(text, current, wordStart, end)
    requires NextCut(text, wordStart, wordEnd, end) && CutsFit(text, current, wordStart, end, count, targetMax)
    ensures var (cut, next) := CutAtWord(text, current, wordStart, wordEnd, count, targetMax);
      AllGreedy(text, cut, end, count, targetMax) && Building(text, next, wordEnd, end, count, targetMax)
  {
    hide Slice, IsSpace, CutsFit;
    var (cut, next) := CutAtWord(text, current, wordStart, wordEnd, count, targetMax);
    if next == current && cut == [] {
      OneWordFurther(text, current, wordStart, wordEnd, end, count, targetMax);
    } else {
      if current < wordStart {
        HeadIsGreedy(text, current, wordStart, wordEnd, end, count, targetMax);
      }
      if next == wordEnd {
        FreshPart(text, wordEnd, end, count, targetMax);
      } else {
        CutsFitHere(text, wordStart, end, count, targetMax);
        OneWordFurther(text, wordStart, wordStart, wordEnd, end, count, targetMax);
      }
    }
  }

  lemma {:induction false} HeadIsGreedy(text: string, current: nat, wordStart: nat, wordEnd: nat, end: nat,
                                        count: string -> nat, targetMax: nat)
    requires IsCutIn(text, current, wordStart, end) && NextCut(text, wordStart, wordEnd, end)
    requires CutsFit(text, current, wordStart, end, count, targetMax) && !Fits(text, current, wordEnd, count, targetMax)
    ensures GreedyWord(text, Unit(current, wordStart, false), end, count, targetMax)
  {
    hide Fits, IsCut, CutsFit, NextCut;
    forall q: nat | NextCut(text, wordStart, q, end) ensures !Fits(text, current, q, count, targetMax) {
      OneNextCut(text, wordStart, wordEnd, q, end);
    }
  }

  ghost predicate IsCutIn(text: string, from: nat, p: nat, end: nat) {
    end <= |text| && IsCut(text, from, p, end)
  }

  lemma {:induction false} CutsFitHere(text: string, from: nat, end: nat, count: string -> nat, targetMax: nat)
    requires end <= |text|
    ensures CutsFit(text, from, from, end, count, targetMax)
  {
    hide IsSpace, Fits;
  }

  lemma {:induction false} FreshPart(text: string, p: nat, end: nat, count: string -> nat, targetMax: nat)
    requires p <= end <= |text| && (p < end ==> !IsSpace(text[p]))
    ensures Building(text, p, p, end, count, targetMax)
  {
    hide IsSpace, Fits;
    assert p < end ==> text[p..end][0] == text[p];
  }

  lemma {:induction false} WordUnitsAreGreedy(text: string, current: nat, pos: nat, end: nat, count: string -> nat,
                                              targetMax: nat)
    requires Building(text, current, pos, end, count, targetMax)
    ensures AllGreedy(text, WordUnits(text, current, pos, end, count, targetMax), end, count, targetMax)
    decreases end - pos
  {
    hide WordEnd, IsSpace, GreedyWord, CutAtWord, Blank, CutsFit;
    var wordStart := SkipSpace(text, pos, end);
    if pos == end {
      if current < end {
        LastPartIsGreedy(text, current, end, count, targetMax);
      }
    } else {
      WordFits(text, current, pos, end, count, targetMax);
      WordEndIsNextCut(text, wordStart, end);
      BlankHasNoCut(text, pos, end);
      var wordEnd := WordEnd(text, wordStart, end);
      var (cut, next) := CutAtWord(text, current, wordStart, wordEnd, count, targetMax);
      CutAtWordIsGreedy(text, current, wordStart, wordEnd, end, count, targetMax);
      WordUnitsAreGreedy(text, next, wordEnd, end, count, targetMax);
    }
  }

  lemma {:induction false} LastPartIsGreedy(text: string, current: nat, end: nat, count: string -> nat, targetMax: nat)
    requires Building(text, current, end, end, count, targetMax) && current < end
    ensures GreedyWord(text, Unit(current, end, false), end, count, targetMax)
  {
    hide IsSpace, Fits, Blank;
  }

  lemma {:induction false} OneSentenceObeys(text: string, a: nat, b: nat, count: string -> nat, targetMax: nat)
    requires a < b <= |text|
    ensures forall u | u in OneSentence(text, a, b, count, targetMax) :: SentenceUnit(text, u, a, b, count, targetMax)
  {
    hide IsSpace, WordUnits, GreedyWord;
    OneSentenceTiles(text, a, b, count, targetMax);
    BlankHasNoCut(text, a, b);
    var units := OneSentence(text, a, b, count, targetMax);
    if !Fits(text, a, b, count, targetMax) && SkipSpace(text, a, b) < b {
      var w := SkipSpace(text, a, b);
      assert text[a..b][w - a] == text[w];
      CutsFitHere(text, a, b, count, targetMax);
      WordUnitsAreGreedy(text, a, a, b, count, targetMax);
      hide Slice, Fits, OneSentence, Tiles;
      assert AllGreedy(text, units, b, count, targetMax);
      forall u | u in units ensures SentenceUnit(text, u, a, b, count, targetMax) {
        TilesStayInside(units, a, b, u);
      }
    }
  }

  lemma {:induction false} TilesStayInside(units: seq<Unit>, from: nat, to: nat, u: Unit)
    requires Tiles(units, from, to) && u in units
    ensures from <= u.start < u.end <= to
  {
    var i :| 0 <= i < |units| && units[i] == u;
    assert i > 0 ==> units[0].end <= units[i].start;
    assert i < |units| - 1 ==> units[i].end <= units[|units| - 1].start;
  }

  lemma {:induction false} SentenceUnitsObey(text: string, start: nat, sentence: nat, from: nat, end: nat,
                                             count: string -> nat, targetMax: nat)
    requires start <= sentence <= from <= end <= |text| && sentence < end
    requires sentence == start || IsSentenceBreak(text, sentence)
    requires forall p: nat | sentence < p < from :: !IsSentenceBreak(text, p)
    requires sentence < from || !IsSentenceBreak(text, sentence)
    ensures var units := SentenceUnits(text, sentence, from, end, count, targetMax);
      AllInSentences(text, start, end, units, count, targetMax)
    decreases end - from
  {
    hide OneSentence, IsSentenceBreak, NextBreak, SentenceUnit;
    var b := NextBreak(text, from, end);
    OneSentenceObeys(text, sentence, b, count, targetMax);
    assert IsSentence(text, start, end, sentence, b);
    if b < end {
      SentenceUnitsObey(text, start, b, b + 1, end, count, targetMax);
    }
  }

  /** Two units of one sentence that begin alike are the same. */
  lemma {:induction false} OneUnitHere(text: string, start: nat, end: nat, u: Unit, v: Unit, count: string -> nat,
                                       targetMax: nat)
    requires end <= |text| && u.start == v.start
    requires InSentence(text, start, end, u, count, targetMax) && InSentence(text, start, end, v, count, targetMax)
    ensures u == v
  {
    hide Fits, GreedyWord, IsSentenceBreak, Blank;
    var a: nat, b: nat :| IsSentence(text, start, end, a, b) && SentenceUnit(text, u, a, b, count, targetMax);
    var c: nat, d: nat :| IsSentence(text, start, end, c, d) && SentenceUnit(text, v, c, d, count, targetMax);
    assert a == c && b == d;
    if !Fits(text, a, b, count, targetMax) && !Blank(text[a..b]) {
      OneGreedyWord(text, u, v, b, count, targetMax);
    }
  }

  lemma {:induction false} OneGreedyWord(text: string, u: Unit, v: Unit, end: nat, count: string -> nat,
                                         targetMax: nat)
    requires end <= |text| && u.start == v.start
    requires GreedyWord(text, u, end, count, targetMax) && GreedyWord(text, v, end, count, targetMax)
    ensures u == v
  {
    hide Fits, Blank, IsSpace;
    if u.indivisible {
      HoldsWord(text, u.start, u.start, u.end);
    }
    if v.indivisible {
      HoldsWord(text, v.start, v.start, v.end);
    }
    if !u.indivisible && u.end < v.end {
      NoFurtherCutFits(text, u, v.end, end, count, targetMax);
    }
    if !v.indivisible && v.end < u.end {
      NoFurtherCutFits(text, v, u.end, end, count, targetMax);
    }
  }

  /** A greedy part cannot be carried on: a later cut leaves one on the way that does not fit. */
  lemma {:induction false} NoFurtherCutFits(text: string, u: Unit, e: nat, end: nat, count: string -> nat,
                                            targetMax: nat)
    requires end <= |text| && GreedyWord(text, u, end, count, targetMax) && !u.indivisible
    requires IsCut(text, u.start, e, end) && u.end < e
    ensures !CutsFit(text, u.start, e, end, count, targetMax)
  {
    hide Fits, IsSpace, Blank;
    WordEndIsNextCut(text, u.end, end);
    var q := WordEnd(text, u.end, end);
    assert IsCut(text, u.end, e, end);
    HoldsWord(text, u.start, u.end, q);
    assert IsCut(text, u.start, q, end) && q <= e;
  }

  lemma {:induction false} HoldsWord(text: string, from: nat, p: nat, to: nat)
    requires from <= p < to <= |text| && !IsSpace(text[p])
    ensures !Blank(text[from..to])
  {
    hide IsSpace;
    assert text[from..to][p - from] == text[p];
  }

  lemma {:induction false} SplitIsUnique(text: string, start: nat, end: nat, from: nat, a: seq<Unit>, b: seq<Unit>,
                                         count: string -> nat, targetMax: nat)
    requires end <= |text| && Tiles(a, from, end) && Tiles(b, from, end)
    requires AllInSentences(text, start, end, a, count, targetMax)
    requires AllInSentences(text, start, end, b, count, targetMax)
    ensures a == b
    decreases |a|
  {
    hide InSentence;
    if a != [] && b != [] {
      OneUnitHere(text, start, end, a[0], b[0], count, targetMax);
      TilesRest(a, from, end);
      TilesRest(b, from, end);
      SplitIsUnique(text, start, end, a[0].end, a[1..], b[1..], count, targetMax);
      assert a == [a[0]] + a[1..] && b == [b[0]] + b[1..];
    } else {
      assert a != [] ==> from < end by { FirstIsInside(a, from, end); }
      assert b != [] ==> from < end by { FirstIsInside(b, from, end); }
    }
  }

  lemma {:induction false} FirstIsInside(a: seq<Unit>, from: nat, end: nat)
    requires Tiles(a, from, end)
    ensures a != [] ==> from < end
  {
    if a != [] {
      TilesStayInside(a, from, end, a[0]);
    }
  }

  lemma {:induction false} TilesRest(a: seq<Unit>, from: nat, end: nat)
    requires Tiles(a, from, end) && a != []
    ensures Tiles(a[1..], a[0].end, end)
  {
    assert forall i | 0 <= i < |a| - 1 :: a[1..][i] == a[i + 1];
  }

  /** The units of a kept range are the ones the rule names, and no other list meets it. */
  lemma {:induction false} SplitIsExact(text: string, isBullet: string -> bool, r: Range, count: string -> nat,
                                        targetMax: nat, units: seq<Unit>)
    requires IsRange(text, isBullet, r)
    ensures SplitRule(text, r.start, r.end, r.bullet, count, targetMax, units)
       <==> units == SemanticUnits(text, r.start, r.end, r.bullet, count, targetMax)
  {
    hide SentenceUnits, Slice, Tiles, AllInSentences, Blank;
    RangeStartsNoSentence(text, isBullet, r);
    hide IsRange, IsSentenceBreak;
    SentenceUnitsTile(text, r.start, r.start, r.end, count, targetMax);
    SentenceUnitsObey(text, r.start, r.start, r.start, r.end, count, targetMax);
    var actual := SentenceUnits(text, r.start, r.start, r.end, count, targetMax);
    if Tiles(units, r.start, r.end) && AllInSentences(text, r.start, r.end, units, count, targetMax) {
      SplitIsUnique(text, r.start, r.end, r.start, units, actual, count, targetMax);
    }
  }

  lemma {:induction false} RangeStartsNoSentence(text: string, isBullet: string -> bool, r: Range)
    requires IsRange(text, isBullet, r)
    ensures r.start < r.end <= |text| && !IsSentenceBreak(text, r.start)
  {
    hide Blank;
  }

  // ----- the loops -----

  method ScanStarts(text: string, isBullet: string -> bool) returns (starts: seq<nat>)
    ensures starts == [0] + Starts(text, 0, false, isBullet)
    ensures forall p: nat :: p in starts <==> p == 0 || OpensRange(text, isBullet, p)
    ensures forall j, k | 0 <= j < k < |starts| :: starts[j] < starts[k]
  {
    hide OpensRange;
    OpeningsAreStarts(text, isBullet);
    starts := [0];
    var offset, afterBlank := 0, false;
    while offset < |text|
      invariant offset <= |text|
      invariant starts + Starts(text, offset, afterBlank, isBullet) == [0] + Starts(text, 0, false, isBullet)
    {
      hide LineEnd, Blank;
      var next := LineEnd(text, offset);
      var line := text[offset..next];
      if Blank(line) {
        afterBlank := true;
      } else if offset > 0 && (afterBlank || isBullet(line)) {
        Assoc(starts, [offset], Starts(text, next, false, isBullet));
        starts := starts + [offset];
        afterBlank := false;
      } else {
        afterBlank := false;
      }
      offset := next;
    }
    assert starts + [] == starts;
    assert starts == AllStarts(text, isBullet);
  }

  method ScanSemanticRanges(text: string, isBullet: string -> bool) returns (ranges: seq<Range>)
    ensures ranges == SemanticRanges(text, isBullet)
    ensures forall r :: r in ranges <==> IsRange(text, isBullet, r)
    ensures forall j, k | 0 <= j < k < |ranges| :: ranges[j].end <= ranges[k].start
  {
    hide Blank, Starts, RangeAt, IsRange;
    RangesAreExact(text, isBullet);
    var starts := ScanStarts(text, isBullet);
    ranges := [];
    for k := 0 to |starts|
      invariant ranges == RangesUpTo(text, starts, k, isBullet)
    {
      var r := RangeAt(text, starts, k, isBullet);
      if !Blank(Slice(text, r.start, r.end)) {
        ranges := ranges + [r];
      }
    }
  }

  method SplitAtWhitespace(text: string, start: nat, end: nat, count: string -> nat, targetMax: nat)
    returns (units: seq<Unit>)
    requires start <= end <= |text|
    ensures units == WhitespaceUnits(text, start, end, count, targetMax)
  {
    hide Slice, WordEnd, IsSpace;
    var wordStart := SkipSpace(text, start, end);
    if wordStart == end {
      return [Unit(start, end, true)];
    }
    units := [];
    var currentStart: nat, pos: nat := start, start;
    while wordStart < end
      invariant currentStart <= pos <= wordStart <= end
      invariant wordStart == SkipSpace(text, pos, end)
      invariant units + WordUnits(text, currentStart, pos, end, count, targetMax)
             == WordUnits(text, start, start, end, count, targetMax)
      decreases end - pos
    {
      var wordEnd := WordEnd(text, wordStart, end);
      ghost var before := units;
      ghost var (cut, next) := CutAtWord(text, currentStart, wordStart, wordEnd, count, targetMax);
      if count(Slice(text, currentStart, wordEnd)) > targetMax {
        if currentStart < wordStart {
          units := units + [Unit(currentStart, wordStart, false)];
        }
        currentStart := wordStart;
        if count(Slice(text, wordStart, wordEnd)) > targetMax {
          units := units + [Unit(wordStart, wordEnd, true)];
          currentStart := wordEnd;
        }
      }
      assert units == before + cut && currentStart == next;
      Assoc(before, cut, WordUnits(text, next, wordEnd, end, count, targetMax));
      pos := wordEnd;
      wordStart := SkipSpace(text, pos, end);
    }
    if currentStart < end {
      units := units + [Unit(currentStart, end, false)];
    }
  }

  method SplitSentence(text: string, start: nat, end: nat, count: string -> nat, targetMax: nat)
    returns (units: seq<Unit>)
    requires start <= end <= |text|
    ensures units == OneSentence(text, start, end, count, targetMax)
  {
    if count(Slice(text, start, end)) <= targetMax {
      units := [Unit(start, end, false)];
    } else {
      units := SplitAtWhitespace(text, start, end, count, targetMax);
    }
  }

  /** The end of the sentence in which `from` lies. */
  function SentenceEnd(text: string, from: nat, end: nat): (b: nat)
    requires from <= end <= |text|
    ensures from <= b <= end
  {
    NextBreak(text, from, end)
  }

  /** The units of all sentences of a range. */
  function SentenceSplit(text: string, start: nat, end: nat, count: string -> nat, targetMax: nat): seq<Unit>
    requires start <= end <= |text|
  {
    SentenceUnits(text, start, start, end, count, targetMax)
  }

  /** The units so far, and those of the rest of the range, make up all its units. */
  ghost predicate SplitSoFar(text: string, start: nat, end: nat, count: string -> nat, targetMax: nat, units: seq<Unit>,
                             sentenceStart: nat, from: nat)
    requires start <= sentenceStart <= from <= end <= |text|
  {
    units + SentenceUnits(text, sentenceStart, from, end, count, targetMax) == SentenceSplit(text, start, end, count,
        targetMax)
  }

  lemma {:induction false} SplitStart(text: string, start: nat, end: nat, count: string -> nat, targetMax: nat)
    requires start <= end <= |text|
    ensures SplitSoFar(text, start, end, count, targetMax, [], start, start)
  {
    var all := SentenceUnits(text, start, start, end, count, targetMax);
    assert [] + all == all;
  }

  lemma {:induction false} SplitStep(text: string, start: nat, end: nat, count: string -> nat, targetMax: nat,
                                     units: seq<Unit>, sentenceStart: nat, from: nat)
    requires start <= sentenceStart <= from <= end <= |text|
             && SplitSoFar(text, start, end, count, targetMax, units, sentenceStart, from)
    ensures var b := SentenceEnd(text, from, end);
      var more := units + OneSentence(text, sentenceStart, b, count, targetMax);
      if b < end then SplitSoFar(text, start, end, count, targetMax, more, b, b + 1)
      else more == SentenceSplit(text, start, end, count, targetMax)
  {
    hide OneSentence, NextBreak, IsSentenceBreak, SentenceSplit;
    var b := NextBreak(text, from, end);
    var sentence := OneSentence(text, sentenceStart, b, count, targetMax);
    if b < end {
      Assoc(units, sentence, SentenceUnits(text, b, b + 1, end, count, targetMax));
    } else {
      assert sentence + [] == sentence;
    }
  }

  method SplitSentences(text: string, start: nat, end: nat, count: string -> nat, targetMax: nat)
    returns (units: seq<Unit>)
    requires start <= end <= |text|
    ensures units == SentenceSplit(text, start, end, count, targetMax)
  {
    hide SplitSoFar, SentenceSplit, OneSentence, SentenceEnd;
    units := [];
    ghost var from := start;
    var sentenceStart, sentenceEnd := start, SentenceEnd(text, start, end);
    SplitStart(text, start, end, count, targetMax);
    while sentenceEnd < end
      invariant start <= sentenceStart <= from <= sentenceEnd <= end
      invariant sentenceEnd == SentenceEnd(text, from, end)
      invariant SplitSoFar(text, start, end, count, targetMax, units, sentenceStart, from)
      decreases end - from
    {
      var sentence := SplitSentence(text, sentenceStart, sentenceEnd, count, targetMax);
      SplitStep(text, start, end, count, targetMax, units, sentenceStart, from);
      units := units + sentence;
      from := sentenceEnd + 1;
      sentenceStart, sentenceEnd := sentenceEnd, SentenceEnd(text, sentenceEnd + 1, end);
    }
    var last := SplitSentence(text, sentenceStart, sentenceEnd, count, targetMax);
    SplitStep(text, start, end, count, targetMax, units, sentenceStart, from);
    units := units + last;
  }

  method SplitSemanticUnit(text: string, start: nat, end: nat, bullet: bool, count: string -> nat, targetMax: nat)
    returns (units: seq<Unit>)
    requires start <= end <= |text|
    ensures units == SemanticUnits(text, start, end, bullet, count, targetMax)
  {
    hide Slice;
    if count(Slice(text, start, end)) <= targetMax {
      return [Unit(start, end, false)];
    }
    if bullet {
      return [Unit(start, end, true)];
    }
    units := SplitSentences(text, start, end, count, targetMax);
  }
}
