/** Where the chunks of a document come from: which paragraphs, which windows, and what the verdict on them says. */
module ChunkOrigins {
  import opened Chunking
  import opened Segmentation
  import opened Sequences
  import opened Text
  import opened Windows
  import opened Wrappers

  // ----- which paragraphs are new -----

  /** Paragraph `m` of an approved section of the list. */
  ghost predicate IsParagraph(config: Config, sections: seq<Section>, s: nat, m: nat) {
    && s < |sections| && config.classify(sections[s]).Some? && !Blank(sections[s].exactText)
    && m < |SemanticRanges(sections[s].exactText, config.isBullet)|
  }

  function HashAt(config: Config, sections: seq<Section>, s: nat, m: nat): string
    requires s < |sections| && m < |SemanticRanges(sections[s].exactText, config.isBullet)|
  {
    ParagraphHash(config, sections[s].exactText, SemanticRanges(sections[s].exactText, config.isBullet)[m])
  }

  ghost predicate Repeats(config: Config, sections: seq<Section>, s: nat, m: nat, t: nat, n: nat) {
    && IsParagraph(config, sections, s, m) && IsParagraph(config, sections, t, n)
    && HashAt(config, sections, t, n) == HashAt(config, sections, s, m)
  }

  /** No paragraph before it, in an earlier approved section or earlier in its own, has its hash. */
  ghost predicate IsNew(config: Config, sections: seq<Section>, s: nat, m: nat) {
    && IsParagraph(config, sections, s, m)
    && forall t: nat, n: nat | t < s || (t == s && n < m) :: !Repeats(config, sections, s, m, t, n)
  }

  lemma {:induction false} SeenExactly(config: Config, sections: seq<Section>, i: nat, h: string)
    requires i <= |sections|
    ensures h in SeenBefore(config, sections, i)
       <==> exists t: nat, n: nat :: t < i && IsParagraph(config, sections, t, n) && HashAt(config, sections, t, n) == h
  {
    hide SemanticRanges, ParagraphHash, Blank;
    if i > 0 {
      SeenExactly(config, sections, i - 1, h);
      var text := sections[i - 1].exactText;
      var ranges := SemanticRanges(text, config.isBullet);
      assert h in SectionHashes(config, sections[i - 1])
        <==> exists n: nat :: n < |ranges| && ParagraphHash(config, text, ranges[n]) == h;
      if n: nat :| n < |ranges| && ParagraphHash(config, text, ranges[n]) == h && Approved(config, sections[i - 1]) {
        assert IsParagraph(config, sections, i - 1, n) && HashAt(config, sections, i - 1, n) == h;
      }
    }
  }

  /** The deduplication takes a paragraph of an approved section for new exactly when it is. */
  lemma {:induction false} FirstSeenExactly(config: Config, sections: seq<Section>, s: nat, m: nat)
    requires IsParagraph(config, sections, s, m)
    ensures FirstSeen(config, sections[s], SeenBefore(config, sections, s), m) <==> IsNew(config, sections, s, m)
  {
    hide SemanticRanges, ParagraphHash, Blank, SeenBefore;
    var text := sections[s].exactText;
    var ranges := SemanticRanges(text, config.isBullet);
    var h := HashAt(config, sections, s, m);
    SeenExactly(config, sections, s, h);
    assert h in HashesUpTo(config, text, ranges, m)
      <==> exists n: nat :: n < m && ParagraphHash(config, text, ranges[n]) == h;
    if n: nat :| n < m && ParagraphHash(config, text, ranges[n]) == h {
      assert Repeats(config, sections, s, m, s, n);
    }
    if t: nat, n: nat :| t < s && IsParagraph(config, sections, t, n) && HashAt(config, sections, t, n) == h {
      assert Repeats(config, sections, s, m, t, n);
    }
    if t: nat, n: nat :| (t < s || (t == s && n < m)) && Repeats(config, sections, s, m, t, n) {
      assert t == s ==> ParagraphHash(config, text, ranges[n]) == h;
    }
  }

  // ----- which unit groups a section has -----

  /** The units of the paragraphs a..b of a section, one after the other. */
  function RunUnits(config: Config, text: string, a: nat, b: nat): seq<Unit>
    requires config.Accepted() && a <= b <= |SemanticRanges(text, config.isBullet)|
    decreases b
  {
    if a == b then []
    else RunUnits(config, text, a, b - 1) + UnitsOf(config, text, SemanticRanges(text, config.isBullet)[b - 1])
  }

  /** The paragraphs a..b are new, and the ones next to them are not. */
  ghost predicate IsRun(config: Config, section: Section, seen: set<string>, a: nat, b: nat) {
    && a < b <= |SemanticRanges(section.exactText, config.isBullet)|
    && (forall m: nat | a <= m < b :: FirstSeen(config, section, seen, m))
    && (a > 0 ==> !FirstSeen(config, section, seen, a - 1))
    && !FirstSeen(config, section, seen, b)
  }

  /** The group is that of some run of new paragraphs that begins at or after paragraph `from`. */
  ghost predicate IsRunGroup(config: Config, section: Section, seen: set<string>, from: nat, group: seq<Unit>)
    requires config.Accepted()
  {
    exists a: nat, b: nat :: from <= a && IsGroupOf(config, section, seen, a, b, group)
  }

  ghost predicate IsGroupOf(config: Config, section: Section, seen: set<string>, a: nat, b: nat, group: seq<Unit>)
    requires config.Accepted()
  {
    IsRun(config, section, seen, a, b) && group == RunUnits(config, section.exactText, a, b)
  }

  /** The group under construction holds the units of the new paragraphs a..k. */
  ghost predicate Collecting(config: Config, section: Section, seen: set<string>, a: nat, k: nat, now: set<string>,
                             current: seq<Unit>)
    requires config.Accepted()
  {
    && a <= k <= |SemanticRanges(section.exactText, config.isBullet)|
    && now == seen + HashesUpTo(config, section.exactText, SemanticRanges(section.exactText, config.isBullet), k)
    && (forall m: nat | a <= m < k :: FirstSeen(config, section, seen, m))
    && (a > 0 ==> !FirstSeen(config, section, seen, a - 1))
    && current == RunUnits(config, section.exactText, a, k)
  }

  lemma {:induction false} RunHoldsUnits(config: Config, text: string, a: nat, b: nat)
    requires config.Accepted() && a < b <= |SemanticRanges(text, config.isBullet)|
    ensures RunUnits(config, text, a, b) != []
  {
    hide SemanticRanges, UnitsOf, GoodGroup;
    RangeUnitsAreGood(config, text, SemanticRanges(text, config.isBullet), b - 1);
    GroupHoldsUnits(config, text, UnitsOf(config, text, SemanticRanges(text, config.isBullet)[b - 1]));
  }

  lemma {:induction false} GroupHoldsUnits(config: Config, text: string, group: seq<Unit>)
    requires config.Accepted() && GoodGroup(config, text, group)
    ensures group != []
  {}

  lemma {:induction false} NewNow(config: Config, section: Section, seen: set<string>, a: nat, k: nat,
                                  now: set<string>, current: seq<Unit>)
    requires config.Accepted() && Collecting(config, section, seen, a, k, now, current)
    requires k < |SemanticRanges(section.exactText, config.isBullet)|
    ensures var ranges := SemanticRanges(section.exactText, config.isBullet);
      var h := ParagraphHash(config, section.exactText, ranges[k]);
      && (FirstSeen(config, section, seen, k) <==> h !in now)
      && now + {h} == seen + HashesUpTo(config, section.exactText, ranges, k + 1)
      && (h in now ==> now == now + {h})
  {
    hide SemanticRanges, ParagraphHash, UnitsOf;
    HashesGrow(config, section.exactText, SemanticRanges(section.exactText, config.isBullet), k);
  }

  lemma {:induction false} CollectOne(config: Config, section: Section, seen: set<string>, a: nat, k: nat,
                                      now: set<string>, current: seq<Unit>)
    requires config.Accepted() && Collecting(config, section, seen, a, k, now, current)
    requires k < |SemanticRanges(section.exactText, config.isBullet)| && FirstSeen(config, section, seen, k)
    ensures var r := SemanticRanges(section.exactText, config.isBullet)[k];
      Collecting(config, section, seen, a, k + 1, now + {ParagraphHash(config, section.exactText, r)},
                 current + UnitsOf(config, section.exactText, r))
  {
    hide SemanticRanges, ParagraphHash, UnitsOf, FirstSeen, HashesUpTo;
    NewNow(config, section, seen, a, k, now, current);
    var text := section.exactText;
    assert RunUnits(config, text, a, k + 1)
        == RunUnits(config, text, a, k) + UnitsOf(config, text, SemanticRanges(text, config.isBullet)[k]);
    hide RunUnits;
  }

  lemma {:induction false} DropOne(config: Config, section: Section, seen: set<string>, a: nat, k: nat,
                                   now: set<string>, current: seq<Unit>)
    requires config.Accepted() && Collecting(config, section, seen, a, k, now, current)
    requires k < |SemanticRanges(section.exactText, config.isBullet)| && !FirstSeen(config, section, seen, k)
    ensures Collecting(config, section, seen, k + 1, k + 1, now, [])
  {
    NewNow(config, section, seen, a, k, now, current);
    hide SemanticRanges, ParagraphHash, UnitsOf, FirstSeen, HashesUpTo;
  }

  /** A run that begins at or after `a`, where the paragraphs a..k are new and k is not, is a..k or lies behind. */
  lemma {:induction false} RunsFrom(config: Config, section: Section, seen: set<string>, a: nat, k: nat,
                                    now: set<string>, current: seq<Unit>, group: seq<Unit>)
    requires config.Accepted() && Collecting(config, section, seen, a, k, now, current)
    requires !FirstSeen(config, section, seen, k)
    ensures IsRunGroup(config, section, seen, a, group)
       <==> (a < k && group == current) || IsRunGroup(config, section, seen, k + 1, group)
  {
    hide SemanticRanges, ParagraphHash, UnitsOf, FirstSeen, HashesUpTo, RunUnits;
    if a < k && group == current {
      assert IsGroupOf(config, section, seen, a, k, group);
    }
    if c: nat, d: nat :| a <= c && IsGroupOf(config, section, seen, c, d, group) {
      if c < k {
        RunInside(config, section, seen, a, k, c, d);
      } else {
        assert c != k;
      }
    }
  }

  lemma {:induction false} RunInside(config: Config, section: Section, seen: set<string>, a: nat, k: nat, c: nat,
                                     d: nat)
    requires forall m: nat | a <= m < k :: FirstSeen(config, section, seen, m)
    requires !FirstSeen(config, section, seen, k) && a <= c < k && IsRun(config, section, seen, c, d)
    ensures c == a && d == k
  {
    hide SemanticRanges, FirstSeen;
    assert d < k ==> FirstSeen(config, section, seen, d);
    assert k < d ==> !(c <= k < d);
  }

  lemma {:induction false} GroupsFromAreRuns(config: Config, section: Section, seen: set<string>, a: nat, k: nat,
                                             now: set<string>, current: seq<Unit>, group: seq<Unit>)
    requires config.Accepted() && Collecting(config, section, seen, a, k, now, current)
    ensures group in GroupsFrom(config, section.exactText, SemanticRanges(section.exactText, config.isBullet), k, now,
                                current)
       <==> IsRunGroup(config, section, seen, a, group)
    decreases |SemanticRanges(section.exactText, config.isBullet)| - k
  {
    hide SemanticRanges, ParagraphHash, UnitsOf, FirstSeen, HashesUpTo, IsRunGroup;
    var text := section.exactText;
    var ranges := SemanticRanges(text, config.isBullet);
    if a < k {
      RunHoldsUnits(config, text, a, k);
    }
    assert a == k ==> current == [];
    if k == |ranges| {
      assert GroupsFrom(config, text, ranges, k, now, current) == if current == [] then [] else [current];
      NoneBehind(config, section, seen, k, group);
      RunsFrom(config, section, seen, a, k, now, current, group);
    } else {
      NewNow(config, section, seen, a, k, now, current);
      var h := ParagraphHash(config, text, ranges[k]);
      if h in now {
        DropOne(config, section, seen, a, k, now, current);
        GroupsFromAreRuns(config, section, seen, k + 1, k + 1, now, [], group);
        RunsFrom(config, section, seen, a, k, now, current, group);
      } else {
        CollectOne(config, section, seen, a, k, now, current);
        var grown := current + UnitsOf(config, text, ranges[k]);
        GroupsFromAreRuns(config, section, seen, a, k + 1, now + {h}, grown, group);
      }
    }
  }

  lemma {:induction false} NoneBehind(config: Config, section: Section, seen: set<string>, k: nat,
                                      group: seq<Unit>)
    requires config.Accepted() && k == |SemanticRanges(section.exactText, config.isBullet)|
    ensures !FirstSeen(config, section, seen, k) && !IsRunGroup(config, section, seen, k + 1, group)
  {
    hide SemanticRanges, RunUnits, ParagraphHash;
  }

  /** The unit groups of a section are those of the runs of its new paragraphs: a repeated paragraph is in none of
      them, and ends the run before it. */
  lemma {:induction false} GroupsAreExact(config: Config, section: Section, seen: set<string>, group: seq<Unit>)
    requires config.Accepted()
    ensures group in SectionGroups(config, section, seen) <==> IsRunGroup(config, section, seen, 0, group)
  {
    hide SemanticRanges, FirstSeen, IsRunGroup, GroupsFrom;
    assert HashesUpTo(config, section.exactText, SemanticRanges(section.exactText, config.isBullet), 0) == {} by {
      NoHashes(config, section.exactText, SemanticRanges(section.exactText, config.isBullet));
    }
    GroupsFromAreRuns(config, section, seen, 0, 0, seen, [], group);
  }

  // ----- which candidates are kept -----

  /** The windows kept of candidates[..k] are, in order, those at the positions `at`: the ones whose content hash
      no earlier candidate has. */
  ghost predicate AreFirst(config: Config, candidates: seq<Span>, k: nat, kept: seq<Span>, at: seq<nat>)
    requires k <= |candidates|
  {
    AreAt(candidates, k, kept, at) && AreAllFirst(config, candidates, k, at)
  }

  ghost predicate AreAt(candidates: seq<Span>, k: nat, kept: seq<Span>, at: seq<nat>)
    requires k <= |candidates|
  {
    && |at| == |kept|
    && (forall i | 0 <= i < |at| :: at[i] < k && kept[i] == candidates[at[i]])
    && forall i, j | 0 <= i < j < |at| :: at[i] < at[j]
  }

  ghost predicate AreAllFirst(config: Config, candidates: seq<Span>, k: nat, at: seq<nat>)
    requires k <= |candidates|
  {
    forall j: nat | j < k :: j in at <==> IsFirst(config, candidates, j)
  }

  ghost predicate IsFirst(config: Config, candidates: seq<Span>, j: nat)
    requires j < |candidates|
  {
    forall i: nat | i < j :: config.hash(SpanText(candidates[i])) != config.hash(SpanText(candidates[j]))
  }

  lemma {:induction false} KeptHashesAre(config: Config, candidates: seq<Span>, k: nat, h: string)
    requires k <= |candidates|
    ensures h in KeptHashes(config, Kept(config, candidates, k))
       <==> exists i: nat :: i < k && config.hash(SpanText(candidates[i])) == h
  {
    hide SpanText;
    KeptAt(config, candidates, k);
    KeptFrom(config, candidates, k);
    var kept := Kept(config, candidates, k);
    if h in KeptHashes(config, kept) {
      var i :| 0 <= i < |kept| && h == config.hash(SpanText(kept[i]));
      assert kept[i] in candidates[..k];
    }
  }

  lemma {:induction false} KeptFrom(config: Config, candidates: seq<Span>, k: nat)
    requires k <= |candidates|
    ensures forall span | span in Kept(config, candidates, k) :: span in candidates[..k]
  {
    hide SpanText, KeptHashes;
    if k > 0 {
      KeptFrom(config, candidates, k - 1);
      assert candidates[..k] == candidates[..k - 1] + [candidates[k - 1]];
    }
  }

  /** Duplicates go by content hash: exactly the first candidate of each hash is kept, in order. */
  lemma {:induction false} KeptIsExact(config: Config, candidates: seq<Span>, k: nat) returns (at: seq<nat>)
    requires k <= |candidates|
    ensures AreFirst(config, candidates, k, Kept(config, candidates, k), at)
  {
    hide SpanText, KeptHashes, AreFirst, IsFirst;
    if k == 0 {
      at := [];
      NoneKept(config, candidates);
    } else {
      at := KeptIsExact(config, candidates, k - 1);
      LastKeptExactly(config, candidates, k - 1);
      at := KeepLast(config, candidates, k - 1, Kept(config, candidates, k - 1), at);
    }
  }

  lemma {:induction false} NoneKept(config: Config, candidates: seq<Span>)
    ensures AreFirst(config, candidates, 0, [], [])
  {}

  lemma {:induction false} LastKeptExactly(config: Config, candidates: seq<Span>, k: nat)
    requires k < |candidates|
    ensures config.hash(SpanText(candidates[k])) in KeptHashes(config, Kept(config, candidates, k))
       <==> !IsFirst(config, candidates, k)
  {
    hide SpanText;
    KeptHashesAre(config, candidates, k, config.hash(SpanText(candidates[k])));
    hide KeptHashes, Kept;
  }

  lemma {:induction false} KeepLast(config: Config, candidates: seq<Span>, k: nat, kept: seq<Span>, at: seq<nat>)
    returns (more: seq<nat>)
    requires k < |candidates| && AreFirst(config, candidates, k, kept, at)
    ensures AreFirst(config, candidates, k + 1,
                     if IsFirst(config, candidates, k) then kept + [candidates[k]] else kept, more)
  {
    hide IsFirst, AreAllFirst, AreAt;
    more := if IsFirst(config, candidates, k) then at + [k] else at;
    OneMoreAt(candidates, k, kept, at);
    OneMoreFirst(config, candidates, k, at, kept);
  }

  lemma {:induction false} OneMoreAt(candidates: seq<Span>, k: nat, kept: seq<Span>, at: seq<nat>)
    requires k < |candidates| && AreAt(candidates, k, kept, at)
    ensures AreAt(candidates, k + 1, kept, at) && AreAt(candidates, k + 1, kept + [candidates[k]], at + [k])
  {}

  lemma {:induction false} OneMoreFirst(config: Config, candidates: seq<Span>, k: nat, at: seq<nat>, kept: seq<Span>)
    requires k < |candidates| && AreAt(candidates, k, kept, at) && AreAllFirst(config, candidates, k, at)
    ensures AreAllFirst(config, candidates, k + 1, if IsFirst(config, candidates, k) then at + [k] else at)
  {
    assert k !in at;
    hide IsFirst, AreAt;
    assert forall j :: j in at + [k] <==> j in at || j == k;
  }

  // ----- the verdict -----

  /** The running total of the tokens of the chunks. */
  ghost predicate IsTokenTotal(count: string -> nat, chunks: seq<Chunk>, totals: seq<nat>) {
    && |totals| == |chunks| + 1 && totals[0] == 0
    && forall i, j | 0 <= i < |chunks| && j == i + 1 :: totals[j] == totals[i] + count(chunks[i].exactText)
  }

  lemma {:induction false} TokensAreExact(count: string -> nat, chunks: seq<Chunk>) returns (totals: seq<nat>)
    ensures IsTokenTotal(count, chunks, totals) && totals[|chunks|] == TokenSum(count, chunks)
    ensures forall other | IsTokenTotal(count, chunks, other) :: other[|chunks|] == TokenSum(count, chunks)
  {
    if chunks == [] {
      totals := [0];
    } else {
      var before := TokensAreExact(count, chunks[..|chunks| - 1]);
      totals := before + [TokenSum(count, chunks)];
      forall other | IsTokenTotal(count, chunks, other) ensures other[|chunks|] == TokenSum(count, chunks) {
        assert IsTokenTotal(count, chunks[..|chunks| - 1], other[..|chunks|]);
      }
    }
  }

  /** The positions of the chunks that come from sections with one sort key. */
  function WithKey(config: Config, chunks: seq<Chunk>, key: SectionKey): set<nat> {
    set i: nat | i < |chunks| && Key(config, chunks[i].section) == key
  }

  lemma {:induction false} KeyCountIsExact(config: Config, kept: seq<Span>, key: SectionKey)
    ensures CountOfKey(config, kept, key) == |WithKey(config, Drafts(config, kept), key)|
  {
    hide Key, Drafts;
    CountIsSize(config, kept, key);
    var spans := set i: nat | i < |kept| && Key(config, kept[i].section) == key;
    assert WithKey(config, Drafts(config, kept), key) == spans by {
      assert forall i | 0 <= i < |kept| :: Drafts(config, kept)[i].section == kept[i].section;
    }
  }

  lemma {:induction false} CountIsSize(config: Config, kept: seq<Span>, key: SectionKey)
    ensures CountOfKey(config, kept, key) == |set i: nat | i < |kept| && Key(config, kept[i].section) == key|
  {
    hide Key;
    var all := set i: nat | i < |kept| && Key(config, kept[i].section) == key;
    if kept == [] {
      assert all == {};
    } else {
      var n := |kept| - 1;
      CountIsSize(config, kept[..n], key);
      var before := set i: nat | i < n && Key(config, kept[..n][i].section) == key;
      assert all == before + if Key(config, kept[n].section) == key then {n} else {};
    }
  }

  /** More chunks than the limit, in all or from sections with one sort key. */
  ghost predicate TooMany(config: Config, chunks: seq<Chunk>) {
    |chunks| > config.softLimit
    || exists i :: 0 <= i < |chunks| && |WithKey(config, chunks, Key(config, chunks[i].section))| > config.softLimit
  }

  ghost predicate TooLong(config: Config, chunks: seq<Chunk>) {
    exists totals :: IsTokenTotal(config.count, chunks, totals) && totals[|chunks|] > config.tokenLimit
  }

  /** The verdict by its limits, in their order: no chunk at all; a flagged window; too many chunks; too many
      tokens. A document is INDEXED exactly when none of them applies. */
  lemma {:induction false} VerdictIsExact(config: Config, sections: seq<Section>)
    requires config.Accepted()
    ensures var r, kept := ChunkSorted(config, sections), KeptSpans(config, sections);
      && r.chunks == Drafts(config, kept)
      && (r.status, r.reason) ==
           (if r.chunks == [] then (SectionMissing, Some("approved_section_not_found"))
            else if exists span :: span in kept && span.oversized
            then (ReviewRequired, Some("indivisible_unit_over_target_max"))
            else if TooMany(config, r.chunks) then (ReviewRequired, Some("soft_chunk_limit_exceeded"))
            else if TooLong(config, r.chunks) then (ReviewRequired, Some("soft_selected_token_limit_exceeded"))
            else (Coverage.Indexed, None))
      && exists totals :: IsTokenTotal(config.count, r.chunks, totals) && r.tokens == totals[|r.chunks|]
  {
    hide KeptSpans, Key, TokenSum, CountOfKey, IsTokenTotal, WithKey;
    var kept := KeptSpans(config, sections);
    var chunks := Drafts(config, kept);
    var totals := TokensAreExact(config.count, chunks);
    forall key ensures CountOfKey(config, kept, key) == |WithKey(config, chunks, key)| {
      KeyCountIsExact(config, kept, key);
    }
    assert TooMany(config, chunks) <==> OverSoftLimit(config, kept) by {
      assert forall i | 0 <= i < |kept| :: chunks[i].section == kept[i].section;
    }
    assert AnyOversized(kept) <==> exists span :: span in kept && span.oversized;
    hide TooMany, OverSoftLimit, AnyOversized, Drafts;
    EmptyTotal(config.count);
  }

  lemma {:induction false} EmptyTotal(count: string -> nat)
    ensures TokenSum(count, []) == 0
  {}

  /** The budgets are in range and the scope is named. */
  predicate HasGoodBudgets(config: Config) {
    && 0 <= config.targetMin <= config.targetMax && 0 < config.targetMax
    && 0 <= config.overlap && 0 <= config.softLimit && 0 <= config.tokenLimit && !Blank(config.scopeId)
  }

  /** The page range is missing or one-based and ordered, and the character range has the length of the text. */
  predicate HasGoodLocators(s: Section) {
    && (s.pageStart.None? <==> s.pageEnd.None?)
    && (s.pageStart.Some? && s.pageEnd.Some? ==> 1 <= s.pageStart.value <= s.pageEnd.value)
    && 0 <= s.characterStart && s.characterEnd == s.characterStart + |s.exactText|
  }

  /** A call is rejected exactly when its budgets or one of its sections are not good. */
  lemma {:induction false} AcceptedExactly(config: Config, sections: seq<Section>)
    ensures ChunkDocument(config, sections).Success?
       <==> HasGoodBudgets(config) && forall s | s in sections :: HasGoodLocators(s)
  {
    hide Blank, ChunkSorted;
    NoProblem(sections, 0);
    forall s ensures SectionProblem(s).None? <==> HasGoodLocators(s) {}
    hide SectionProblem, HasGoodLocators;
    if HasGoodBudgets(config) && FirstProblem(sections, 0).None? {
      forall s | s in sections ensures HasGoodLocators(s) {
        var k :| 0 <= k < |sections| && sections[k] == s;
      }
    }
  }

  /** A candidate is flagged exactly when its window holds an indivisible unit over the target. */
  lemma {:induction false} FlaggedExactly(config: Config, section: Section, sectionType: string, group: seq<Unit>,
                                          i: nat)
    requires config.Accepted() && i < |GroupSpans(config, section, sectionType, group)|
    ensures var windows := BoundedUnitGroups(section.exactText, group, config.count, config.targetMin,
                                             config.targetMax, config.overlap);
      && |windows| == |GroupSpans(config, section, sectionType, group)| && windows[i] != []
      && var span := GroupSpans(config, section, sectionType, group)[i];
         && span.section == section && span.sectionType == sectionType
         && span.start == windows[i][0].start && span.end == windows[i][|windows[i]| - 1].end
         && (span.oversized <==>
               exists u :: u in windows[i] && u.indivisible
                           && config.count(Slice(section.exactText, u.start, u.end)) > config.targetMax)
  {
    hide BoundedUnitGroups, Slice;
    WindowsNonEmpty(section.exactText, group, config.count, config.targetMin, config.targetMax, config.overlap);
    var windows := BoundedUnitGroups(section.exactText, group, config.count, config.targetMin, config.targetMax,
                                     config.overlap);
    SpansAt(config, section, sectionType, windows, |windows|);
    var span := GroupSpans(config, section, sectionType, group)[i];
    assert span == ToSpan(config, section, sectionType, windows[i]);
    assert forall u | u in windows[i] :: exists k :: 0 <= k < |windows[i]| && windows[i][k] == u;
  }
}
