/** Greedy grouping of units under a token target, balancing of the last group, and overlap windows. */
module Windows {
  import opened Sequences
  import opened Text
  import opened Segmentation

  function CountUnits(text: string, units: seq<Unit>, count: string -> nat): nat
    requires units != []
  {
    count(Slice(text, units[0].start, units[|units| - 1].end))
  }

  // ----- what the grouping computes -----

  /** Groups formed from units[i..] when `current` is the group under construction. */
  function Greedy(text: string, units: seq<Unit>, i: nat, current: seq<Unit>, count: string -> nat,
                  targetMax: nat): seq<seq<Unit>>
    requires i <= |units|
    decreases |units| - i
  {
    if i == |units| then
      if current == [] then [] else [current]
    else if current != [] && CountUnits(text, current + [units[i]], count) > targetMax then
      [current] + Greedy(text, units, i + 1, [units[i]], count, targetMax)
    else
      Greedy(text, units, i + 1, current + [units[i]], count, targetMax)
  }

  /** How many units the balancing loop moves from the end of `prior` to the front of `terminal`. */
  function Moved(text: string, prior: seq<Unit>, terminal: seq<Unit>, count: string -> nat, targetMin: nat,
                 targetMax: nat): (n: nat)
    requires terminal != []
    ensures n == 0 || n < |prior|
    decreases |prior|
  {
    if |prior| <= 1 || CountUnits(text, terminal, count) >= targetMin then 0
    else
      var last := |prior| - 1;
      if CountUnits(text, [prior[last]] + terminal, count) > targetMax
          || CountUnits(text, prior[..last], count) < targetMin then 0
      else 1 + Moved(text, prior[..last], [prior[last]] + terminal, count, targetMin, targetMax)
  }

  ghost predicate NonEmpty(groups: seq<seq<Unit>>) {
    forall i | 0 <= i < |groups| :: groups[i] != []
  }

  function Rebalanced(text: string, groups: seq<seq<Unit>>, count: string -> nat, targetMin: nat,
                      targetMax: nat): seq<seq<Unit>>
    requires NonEmpty(groups)
  {
    if targetMin == 0 || |groups| < 2 then groups
    else
      var last := |groups| - 1;
      var prior, terminal := groups[last - 1], groups[last];
      var cut := |prior| - Moved(text, prior, terminal, count, targetMin, targetMax);
      groups[..last - 1] + [prior[..cut], prior[cut..] + terminal]
  }

  /** The longest tail of `units`, grown one unit at a time from units[k..], that counts at most `overlap`. */
  function TailFrom(text: string, units: seq<Unit>, k: nat, count: string -> nat, overlap: nat): (j: nat)
    requires k <= |units|
    ensures j <= k
    decreases k
  {
    if k == 0 || CountUnits(text, units[k - 1..], count) > overlap then k
    else TailFrom(text, units, k - 1, count, overlap)
  }

  /** Drops leading units of units[j..] until what is left fits together with `group`. */
  function TrimFrom(text: string, units: seq<Unit>, j: nat, group: seq<Unit>, count: string -> nat,
                    targetMax: nat): (k: nat)
    requires j <= |units| && group != []
    ensures j <= k <= |units|
    decreases |units| - j
  {
    if j == |units| || CountUnits(text, units[j..] + group, count) <= targetMax then j
    else TrimFrom(text, units, j + 1, group, count, targetMax)
  }

  /** Where the overlap that `group` takes over from `prior` begins; |prior| when there is none. */
  function OverlapStart(text: string, prior: seq<Unit>, group: seq<Unit>, count: string -> nat, targetMax: nat,
                        overlap: nat): (k: nat)
    requires group != []
    ensures k <= |prior|
  {
    TrimFrom(text, prior, TailFrom(text, prior, |prior|, count, overlap), group, count, targetMax)
  }

  /** The overlap that group `i` takes over from the group before it. */
  function OverlapOf(text: string, groups: seq<seq<Unit>>, i: nat, count: string -> nat, targetMax: nat,
                     overlap: nat): seq<Unit>
    requires NonEmpty(groups) && i < |groups|
  {
    if i == 0 || overlap == 0 then []
    else groups[i - 1][OverlapStart(text, groups[i - 1], groups[i], count, targetMax, overlap)..]
  }

  function Window(text: string, groups: seq<seq<Unit>>, i: nat, count: string -> nat, targetMax: nat,
                  overlap: nat): seq<Unit>
    requires NonEmpty(groups) && i < |groups|
  {
    OverlapOf(text, groups, i, count, targetMax, overlap) + groups[i]
  }

  /** The windows of groups[..n]. */
  function WindowsUpTo(text: string, groups: seq<seq<Unit>>, n: nat, count: string -> nat, targetMax: nat,
                       overlap: nat): seq<seq<Unit>>
    requires NonEmpty(groups) && n <= |groups|
  {
    if n == 0 then []
    else WindowsUpTo(text, groups, n - 1, count, targetMax, overlap)
         + [Window(text, groups, n - 1, count, targetMax, overlap)]
  }

  /** The groups before overlap is added. */
  function BaseGroups(text: string, units: seq<Unit>, count: string -> nat, targetMin: nat,
                      targetMax: nat): seq<seq<Unit>> {
    GreedyNonEmpty(text, units, 0, [], count, targetMax);
    Rebalanced(text, Greedy(text, units, 0, [], count, targetMax), count, targetMin, targetMax)
  }

  function BoundedUnitGroups(text: string, units: seq<Unit>, count: string -> nat, targetMin: nat, targetMax: nat,
                             overlap: nat): seq<seq<Unit>> {
    BaseGroupsNonEmpty(text, units, count, targetMin, targetMax);
    var groups := BaseGroups(text, units, count, targetMin, targetMax);
    WindowsUpTo(text, groups, |groups|, count, targetMax, overlap)
  }

  lemma {:induction false} GreedyNonEmpty(text: string, units: seq<Unit>, i: nat, current: seq<Unit>,
                                          count: string -> nat, targetMax: nat)
    requires i <= |units|
    ensures NonEmpty(Greedy(text, units, i, current, count, targetMax))
    decreases |units| - i
  {
    if i < |units| {
      GreedyNonEmpty(text, units, i + 1, [units[i]], count, targetMax);
      GreedyNonEmpty(text, units, i + 1, current + [units[i]], count, targetMax);
    }
  }

  lemma {:induction false} BaseGroupsNonEmpty(text: string, units: seq<Unit>, count: string -> nat, targetMin: nat,
                                              targetMax: nat)
    ensures NonEmpty(BaseGroups(text, units, count, targetMin, targetMax))
  {
    GreedyNonEmpty(text, units, 0, [], count, targetMax);
  }

  // ----- what it guarantees -----

  function Flatten(groups: seq<seq<Unit>>): seq<Unit> {
    if groups == [] then [] else groups[0] + Flatten(groups[1..])
  }

  lemma {:induction false} FlattenJoin(a: seq<seq<Unit>>, b: seq<seq<Unit>>)
    ensures Flatten(a + b) == Flatten(a) + Flatten(b)
  {
    if a == [] {
      assert a + b == b;
    } else {
      assert (a + b)[1..] == a[1..] + b;
      FlattenJoin(a[1..], b);
    }
  }

  /** A chain of units inside the text. */
  ghost predicate InText(text: string, units: seq<Unit>) {
    Chain(units) && (units != [] ==> units[|units| - 1].end <= |text|)
  }

  lemma {:induction false} CountPart(text: string, units: seq<Unit>, lo: nat, hi: nat, count: string -> nat)
    requires Monotone(count) && InText(text, units) && lo < hi <= |units|
    ensures CountUnits(text, units[lo..hi], count) <= CountUnits(text, units, count)
  {
    var part := units[lo..hi];
    assert part[0] == units[lo] && part[|part| - 1] == units[hi - 1];
    SliceMonotone(count, text, units[lo].start, units[hi - 1].end, units[0].start, units[|units| - 1].end);
  }

  ghost predicate FitsOrAlone(text: string, group: seq<Unit>, count: string -> nat, targetMax: nat) {
    group != [] && (|group| == 1 || CountUnits(text, group, count) <= targetMax)
  }

  /** The first unit of `b` did not fit after `a`. */
  ghost predicate Tight(text: string, a: seq<Unit>, b: seq<Unit>, count: string -> nat, targetMax: nat) {
    a != [] && b != [] && CountUnits(text, a + [b[0]], count) > targetMax
  }

  /** The units of `a` and `b` do not fit into one group. */
  ghost predicate Crowded(text: string, a: seq<Unit>, b: seq<Unit>, count: string -> nat, targetMax: nat) {
    a != [] && b != [] && CountUnits(text, a + b, count) > targetMax
  }

  ghost predicate EachFits(text: string, groups: seq<seq<Unit>>, count: string -> nat, targetMax: nat) {
    forall i | 0 <= i < |groups| :: FitsOrAlone(text, groups[i], count, targetMax)
  }

  ghost predicate NeighboursTight(text: string, groups: seq<seq<Unit>>, count: string -> nat, targetMax: nat) {
    forall i, j | 0 <= i < |groups| && j == i + 1 < |groups| :: Tight(text, groups[i], groups[j], count, targetMax)
  }

  ghost predicate NeighboursCrowded(text: string, groups: seq<seq<Unit>>, count: string -> nat, targetMax: nat) {
    forall i, j | 0 <= i < |groups| && j == i + 1 < |groups| :: Crowded(text, groups[i], groups[j], count, targetMax)
  }

  lemma {:induction false} FlattenCons(group: seq<Unit>, later: seq<seq<Unit>>)
    ensures Flatten([group] + later) == group + Flatten(later)
  {
    assert ([group] + later)[1..] == later;
  }

  /** Greedy grouping loses no unit, keeps every group within the target unless it is one unit, and
      starts a new group only where the next unit did not fit. */
  lemma {:induction false} TightCons(text: string, group: seq<Unit>, later: seq<seq<Unit>>, count: string -> nat,
                                     targetMax: nat)
    requires FitsOrAlone(text, group, count, targetMax) && EachFits(text, later, count, targetMax)
    requires NeighboursTight(text, later, count, targetMax)
             && (later != [] ==> Tight(text, group, later[0], count, targetMax))
    ensures EachFits(text, [group] + later, count, targetMax)
            && NeighboursTight(text, [group] + later, count, targetMax)
  {
    hide Tight, FitsOrAlone;
  }

  lemma {:induction false} GreedyIsTight(text: string, units: seq<Unit>, s: nat, i: nat, count: string -> nat,
                                         targetMax: nat)
    requires s <= i <= |units|
    requires s == i || FitsOrAlone(text, units[s..i], count, targetMax)
    ensures var groups := Greedy(text, units, i, units[s..i], count, targetMax);
            && Flatten(groups) == units[s..]
            && EachFits(text, groups, count, targetMax)
            && NeighboursTight(text, groups, count, targetMax)
            && (s < i ==> groups != [] && units[s..i] <= groups[0])
    decreases |units| - i
  {
    hide CountUnits;
    var current := units[s..i];
    if i == |units| {
      assert units[s..] == current;
      FlattenCons(current, []);
    } else if current != [] && CountUnits(text, current + [units[i]], count) > targetMax {
      assert units[i..i + 1] == [units[i]];
      GreedyIsTight(text, units, i, i + 1, count, targetMax);
      var later := Greedy(text, units, i + 1, [units[i]], count, targetMax);
      assert later[0][0] == units[i];
      FlattenCons(current, later);
      TightCons(text, current, later, count, targetMax);
      assert units[s..] == current + units[i..];
    } else {
      assert units[s..i + 1] == current + [units[i]];
      GreedyIsTight(text, units, s, i + 1, count, targetMax);
    }
  }

  lemma {:induction false} InTextPart(text: string, units: seq<Unit>, lo: nat, hi: nat)
    requires InText(text, units) && lo <= hi <= |units|
    ensures InText(text, units[lo..hi])
  {}

  /** Every unit of the flattened list lies in some group. */
  lemma {:induction false} FlattenAt(groups: seq<seq<Unit>>, q: nat)
    requires q < |Flatten(groups)|
    ensures exists i, j :: 0 <= i < |groups| && 0 <= j < |groups[i]| && groups[i][j] == Flatten(groups)[q]
  {
    if q < |groups[0]| {
      assert groups[0][q] == Flatten(groups)[q];
    } else {
      FlattenAt(groups[1..], q - |groups[0]|);
      var i, j :| 0 <= i < |groups| - 1 && 0 <= j < |groups[1..][i]|
          && groups[1..][i][j] == Flatten(groups[1..])[q - |groups[0]|];
      assert groups[i + 1][j] == Flatten(groups)[q];
    }
  }

  lemma {:induction false} FlattenTwo(a: seq<Unit>, b: seq<Unit>)
    ensures Flatten([a, b]) == a + b
  {
    FlattenCons(a, [b]);
    FlattenCons(b, []);
    assert [a] + [b] == [a, b] && [b] + [] == [b];
  }

  /** Neighbouring groups of a chain form a chain together. */
  lemma {:induction false} PairInText(text: string, groups: seq<seq<Unit>>, i: nat)
    requires InText(text, Flatten(groups)) && i + 1 < |groups|
    ensures InText(text, groups[i] + groups[i + 1])
  {
    hide InText, Flatten;
    var a, b := groups[i], groups[i + 1];
    assert groups == groups[..i] + ([a, b] + groups[i + 2..]);
    FlattenJoin(groups[..i], [a, b] + groups[i + 2..]);
    FlattenJoin([a, b], groups[i + 2..]);
    FlattenTwo(a, b);
    PartOfJoin(Flatten(groups[..i]), a + b, Flatten(groups[i + 2..]), Flatten(groups));
    InTextPart(text, Flatten(groups), |Flatten(groups[..i])|, |Flatten(groups[..i])| + |a + b|);
  }

  lemma {:induction false} PartOfJoin(before: seq<Unit>, part: seq<Unit>, after: seq<Unit>, all: seq<Unit>)
    requires all == before + (part + after)
    ensures |before| + |part| <= |all| && all[|before|..|before| + |part|] == part
  {}

  /** Each group of a chain is a chain, made of units of the flattened list. */
  lemma {:induction false} GroupInText(text: string, groups: seq<seq<Unit>>, i: nat)
    requires i < |groups|
    ensures InText(text, Flatten(groups)) ==> InText(text, groups[i])
    ensures forall u | u in groups[i] :: u in Flatten(groups)
  {
    hide InText, Flatten;
    var before, group, after, all := Flatten(groups[..i]), groups[i], Flatten(groups[i + 1..]), Flatten(groups);
    assert groups == groups[..i] + ([group] + groups[i + 1..]);
    FlattenJoin(groups[..i], [group] + groups[i + 1..]);
    FlattenCons(group, groups[i + 1..]);
    PartOfJoin(before, group, after, all);
    if InText(text, all) {
      InTextPart(text, all, |before|, |before| + |group|);
    }
  }

  lemma {:induction false} TightIsCrowded(text: string, a: seq<Unit>, b: seq<Unit>, count: string -> nat,
                                          targetMax: nat)
    requires Monotone(count) && InText(text, a + b) && Tight(text, a, b, count, targetMax)
    ensures Crowded(text, a, b, count, targetMax)
  {
    hide Monotone, InText, CountUnits;
    assert (a + b)[0..|a| + 1] == a + [b[0]];
    CountPart(text, a + b, 0, |a| + 1, count);
  }

  /** With the last two groups cut at `k`, one more unit may move to the terminal group: the prior group has a unit to
      spare, the terminal one is below the minimum, with the unit it is within the maximum, and without it the prior
      group still meets the minimum. */
  ghost predicate MayMove(text: string, prior: seq<Unit>, terminal: seq<Unit>, k: nat, count: string -> nat,
                          targetMin: nat, targetMax: nat)
    requires k <= |prior| && terminal != []
  {
    && k > 1
    && CountUnits(text, prior[k..] + terminal, count) < targetMin
    && CountUnits(text, prior[k - 1..] + terminal, count) <= targetMax
    && CountUnits(text, prior[..k - 1], count) >= targetMin
  }

  /** Units may move one by one down to the cut, and no further. */
  ghost predicate BalancedCut(text: string, prior: seq<Unit>, terminal: seq<Unit>, cut: nat, count: string -> nat,
                              targetMin: nat, targetMax: nat)
    requires terminal != []
  {
    && cut <= |prior| && !MayMove(text, prior, terminal, cut, count, targetMin, targetMax)
    && forall k | cut < k <= |prior| :: MayMove(text, prior, terminal, k, count, targetMin, targetMax)
  }

  /** Two groups and a minimum to meet: the last two are cut anew at the balanced cut; otherwise nothing changes. */
  ghost predicate Balances(text: string, before: seq<seq<Unit>>, after: seq<seq<Unit>>, count: string -> nat,
                           targetMin: nat, targetMax: nat)
    requires NonEmpty(before)
  {
    if targetMin == 0 || |before| < 2 then after == before
    else
      var prior, terminal := before[|before| - 2], before[|before| - 1];
      exists cut: nat ::
        && BalancedCut(text, prior, terminal, cut, count, targetMin, targetMax)
        && after == before[..|before| - 2] + [prior[..cut], prior[cut..] + terminal]
  }

  /** Only one cut is balanced. */
  lemma {:induction false} BalancedCutIsUnique(text: string, prior: seq<Unit>, terminal: seq<Unit>, a: nat, b: nat,
                                               count: string -> nat, targetMin: nat, targetMax: nat)
    requires terminal != [] && BalancedCut(text, prior, terminal, a, count, targetMin, targetMax)
    requires BalancedCut(text, prior, terminal, b, count, targetMin, targetMax)
    ensures a == b
  {
    hide MayMove;
  }

  lemma {:induction false} MovedIsBalanced(text: string, prior: seq<Unit>, terminal: seq<Unit>, k: nat,
                                           count: string -> nat, targetMin: nat, targetMax: nat)
    requires terminal != [] && k <= |prior|
    ensures var cut := k - Moved(text, prior[..k], prior[k..] + terminal, count, targetMin, targetMax);
      && 0 <= cut <= k && !MayMove(text, prior, terminal, cut, count, targetMin, targetMax)
      && forall j | cut < j <= k :: MayMove(text, prior, terminal, j, count, targetMin, targetMax)
    decreases k
  {
    hide CountUnits;
    if k > 1 {
      assert prior[..k][..k - 1] == prior[..k - 1] && prior[..k][k - 1] == prior[k - 1];
      assert [prior[k - 1]] + (prior[k..] + terminal) == prior[k - 1..] + terminal;
      MovedIsBalanced(text, prior, terminal, k - 1, count, targetMin, targetMax);
    }
  }

  /** Balancing is what the rule of the single move makes of the groups, whatever the counter. */
  lemma {:induction false} BalancingIsExact(text: string, groups: seq<seq<Unit>>, after: seq<seq<Unit>>,
                                            count: string -> nat, targetMin: nat, targetMax: nat)
    requires NonEmpty(groups)
    ensures Balances(text, groups, after, count, targetMin, targetMax) <==>
              after == Rebalanced(text, groups, count, targetMin, targetMax)
  {
    hide MayMove, CountUnits;
    if targetMin > 0 && |groups| >= 2 {
      var prior, terminal := groups[|groups| - 2], groups[|groups| - 1];
      assert prior[..|prior|] == prior && prior[|prior|..] + terminal == terminal;
      MovedIsBalanced(text, prior, terminal, |prior|, count, targetMin, targetMax);
      var cut := |prior| - Moved(text, prior, terminal, count, targetMin, targetMax);
      assert BalancedCut(text, prior, terminal, cut, count, targetMin, targetMax);
      forall other | BalancedCut(text, prior, terminal, other, count, targetMin, targetMax) ensures other == cut {
        BalancedCutIsUnique(text, prior, terminal, other, cut, count, targetMin, targetMax);
      }
    }
  }

  /** A group that grew unit by unit within the target. */
  ghost predicate Grown(text: string, group: seq<Unit>, count: string -> nat, targetMax: nat) {
    group != [] && forall n | 1 < n <= |group| :: CountUnits(text, group[..n], count) <= targetMax
  }

  /** Groups that take the units in order, each as many as fit. */
  ghost predicate IsGreedy(text: string, units: seq<Unit>, groups: seq<seq<Unit>>, count: string -> nat,
                           targetMax: nat) {
    && Flatten(groups) == units
    && (forall i | 0 <= i < |groups| :: Grown(text, groups[i], count, targetMax))
    && NeighboursTight(text, groups, count, targetMax)
  }

  /** The balanced form of a greedy grouping. */
  ghost predicate IsBase(text: string, units: seq<Unit>, groups: seq<seq<Unit>>, count: string -> nat, targetMin: nat,
                         targetMax: nat) {
    exists greedy :: && IsGreedy(text, units, greedy, count, targetMax)
                     && NonEmpty(greedy) && Balances(text, greedy, groups, count, targetMin, targetMax)
  }

  lemma {:induction false} GreedyGrows(text: string, units: seq<Unit>, i: nat, current: seq<Unit>, count: string -> nat,
                                       targetMax: nat)
    requires i <= |units| && (current == [] || Grown(text, current, count, targetMax))
    ensures forall group | group in Greedy(text, units, i, current, count, targetMax) ::
              Grown(text, group, count, targetMax)
    decreases |units| - i
  {
    hide CountUnits;
    if i < |units| {
      var longer := current + [units[i]];
      if current != [] && CountUnits(text, longer, count) > targetMax {
        GreedyGrows(text, units, i + 1, [units[i]], count, targetMax);
      } else {
        assert forall n | 1 < n <= |current| :: longer[..n] == current[..n];
        assert longer[..|longer|] == longer;
        GreedyGrows(text, units, i + 1, longer, count, targetMax);
      }
    }
  }

  lemma {:induction false} PrefixFits(text: string, groups: seq<seq<Unit>>, units: seq<Unit>, n: nat,
                                      count: string -> nat, targetMax: nat)
    requires IsGreedy(text, units, groups, count, targetMax) && groups != [] && 1 < n <= |groups[0]|
    ensures n <= |units| && CountUnits(text, units[..n], count) <= targetMax
  {
    hide CountUnits;
    assert units == groups[0] + Flatten(groups[1..]);
    assert groups[0][..n] == units[..n];
    assert Grown(text, groups[0], count, targetMax);
  }

  lemma {:induction false} NextDoesNotFit(text: string, groups: seq<seq<Unit>>, units: seq<Unit>, count: string -> nat,
                                          targetMax: nat)
    requires IsGreedy(text, units, groups, count, targetMax) && groups != [] && |groups[0]| < |units|
    ensures CountUnits(text, units[..|groups[0]| + 1], count) > targetMax
  {
    hide CountUnits;
    var later := groups[1..];
    assert units == groups[0] + Flatten(later);
    assert later != [] && later[0] == groups[1] && Flatten(later) == groups[1] + Flatten(later[1..]);
    assert Grown(text, groups[1], count, targetMax) && Tight(text, groups[0], groups[1], count, targetMax);
    assert units[..|groups[0]| + 1] == groups[0] + [groups[1][0]];
  }

  lemma {:induction false} FirstGroupFixed(text: string, a: seq<seq<Unit>>, b: seq<seq<Unit>>, units: seq<Unit>,
                                           count: string -> nat, targetMax: nat)
    requires IsGreedy(text, units, a, count, targetMax) && IsGreedy(text, units, b, count, targetMax)
    requires a != [] && b != []
    ensures |b[0]| <= |a[0]|
  {
    hide CountUnits;
    if |b[0]| > |a[0]| {
      assert Grown(text, a[0], count, targetMax);
      PrefixFits(text, b, units, |a[0]| + 1, count, targetMax);
      NextDoesNotFit(text, a, units, count, targetMax);
      assert false;
    }
  }

  /** The units and the target leave only one greedy grouping, whatever the counter. */
  lemma {:induction false} GreedyIsUnique(text: string, units: seq<Unit>, a: seq<seq<Unit>>, b: seq<seq<Unit>>,
                                          count: string -> nat, targetMax: nat)
    requires IsGreedy(text, units, a, count, targetMax) && IsGreedy(text, units, b, count, targetMax)
    ensures a == b
    decreases |a|
  {
    hide CountUnits, Tight;
    if a == [] || b == [] {
      assert a != [] ==> Grown(text, a[0], count, targetMax);
      assert b != [] ==> Grown(text, b[0], count, targetMax);
    } else {
      FirstGroupFixed(text, a, b, units, count, targetMax);
      FirstGroupFixed(text, b, a, units, count, targetMax);
      assert units == a[0] + Flatten(a[1..]) && units == b[0] + Flatten(b[1..]);
      assert a[0] == units[..|a[0]|] == b[0];
      assert Flatten(a[1..]) == units[|a[0]|..] == Flatten(b[1..]);
      GreedyIsUnique(text, units[|a[0]|..], a[1..], b[1..], count, targetMax);
      assert a == [a[0]] + a[1..] && b == [b[0]] + b[1..];
    }
  }

  /** The groups before overlap are the balanced form of the one greedy grouping of the units, whatever the counter. */
  lemma {:induction false} BaseGroupsAreExact(text: string, units: seq<Unit>, groups: seq<seq<Unit>>,
                                              count: string -> nat, targetMin: nat, targetMax: nat)
    ensures IsBase(text, units, groups, count, targetMin, targetMax) <==>
              groups == BaseGroups(text, units, count, targetMin, targetMax)
  {
    hide CountUnits, Flatten, Balances, Rebalanced, NeighboursTight;
    var greedy := Greedy(text, units, 0, [], count, targetMax);
    GreedyNonEmpty(text, units, 0, [], count, targetMax);
    GreedyGrows(text, units, 0, [], count, targetMax);
    assert units[0..0] == [] && units[0..] == units;
    GreedyIsTight(text, units, 0, 0, count, targetMax);
    assert forall i | 0 <= i < |greedy| :: greedy[i] in greedy;
    BalancingIsExact(text, greedy, groups, count, targetMin, targetMax);
    assert IsGreedy(text, units, greedy, count, targetMax);
    forall other | IsGreedy(text, units, other, count, targetMax) ensures other == greedy {
      GreedyIsUnique(text, units, other, greedy, count, targetMax);
    }
    hide IsGreedy, Greedy;
  }

  /** The balancing loop only moves units while the terminal group stays within the target. */
  lemma {:induction false} MovedFits(text: string, prior: seq<Unit>, terminal: seq<Unit>, count: string -> nat,
                                     targetMin: nat, targetMax: nat)
    requires terminal != []
    ensures var n := Moved(text, prior, terminal, count, targetMin, targetMax);
            n > 0 ==> CountUnits(text, prior[|prior| - n..] + terminal, count) <= targetMax
    decreases |prior|
  {
    hide CountUnits;
    var n := Moved(text, prior, terminal, count, targetMin, targetMax);
    if n > 0 {
      var last := |prior| - 1;
      MovedFits(text, prior[..last], [prior[last]] + terminal, count, targetMin, targetMax);
      assert prior[|prior| - n..] == prior[..last][|prior| - n..] + [prior[last]];
      assert prior[|prior| - n..] + terminal == prior[..last][last - (n - 1)..] + ([prior[last]] + terminal);
      if n == 1 {
        assert prior[..last][last..] == [];
        assert [] + ([prior[last]] + terminal) == [prior[last]] + terminal;
      }
    }
  }

  /** What the base groups are: all the units in order, each group within the target unless it is one
      unit, and no two neighbours that would fit together. */
  ghost predicate GoodGroups(text: string, units: seq<Unit>, groups: seq<seq<Unit>>, count: string -> nat,
                             targetMax: nat) {
    && Flatten(groups) == units
    && EachFits(text, groups, count, targetMax)
    && NeighboursCrowded(text, groups, count, targetMax)
  }

  lemma {:induction false} AllCrowded(text: string, groups: seq<seq<Unit>>, count: string -> nat, targetMax: nat)
    requires Monotone(count) && InText(text, Flatten(groups)) && NeighboursTight(text, groups, count, targetMax)
    ensures NeighboursCrowded(text, groups, count, targetMax)
  {
    hide Monotone, InText;
    forall i, j | 0 <= i < |groups| && j == i + 1 < |groups|
      ensures Crowded(text, groups[i], groups[j], count, targetMax)
    {
      PairInText(text, groups, i);
      TightIsCrowded(text, groups[i], groups[j], count, targetMax);
    }
  }

  /** Cutting the last two groups elsewhere changes no unit. */
  lemma {:induction false} RecutKeepsUnits(front: seq<seq<Unit>>, prior: seq<Unit>, terminal: seq<Unit>, cut: nat)
    requires cut <= |prior|
    ensures Flatten(front + [prior[..cut], prior[cut..] + terminal]) == Flatten(front + [prior, terminal])
  {
    hide Flatten;
    FlattenJoin(front, [prior, terminal]);
    FlattenJoin(front, [prior[..cut], prior[cut..] + terminal]);
    FlattenTwo(prior, terminal);
    FlattenTwo(prior[..cut], prior[cut..] + terminal);
    assert prior[..cut] + (prior[cut..] + terminal) == prior + terminal;
  }

  /** Moving units from the end of `prior` to the front of `terminal` leaves both within the target and
      still too large to share one group. */
  lemma {:induction false} MoveIsGood(text: string, prior: seq<Unit>, terminal: seq<Unit>, cut: nat,
                                      count: string -> nat, targetMax: nat)
    requires Monotone(count) && InText(text, prior + terminal) && 0 < cut < |prior|
    requires FitsOrAlone(text, prior, count, targetMax) && Crowded(text, prior, terminal, count, targetMax)
    requires CountUnits(text, prior[cut..] + terminal, count) <= targetMax
    ensures FitsOrAlone(text, prior[..cut], count, targetMax)
    ensures FitsOrAlone(text, prior[cut..] + terminal, count, targetMax)
    ensures Crowded(text, prior[..cut], prior[cut..] + terminal, count, targetMax)
  {
    hide Monotone, InText, CountUnits;
    assert (prior + terminal)[0..|prior|] == prior;
    InTextPart(text, prior + terminal, 0, |prior|);
    assert prior[0..cut] == prior[..cut];
    CountPart(text, prior, 0, cut, count);
    assert prior[..cut] + (prior[cut..] + terminal) == prior + terminal;
  }

  /** Replacing the last two groups by `a` and `b`, where `a` begins as the old one did. */
  lemma {:induction false} ReplacedIsGood(text: string, front: seq<seq<Unit>>, prior: seq<Unit>, a: seq<Unit>,
                                          b: seq<Unit>, count: string -> nat, targetMax: nat)
    requires Monotone(count) && InText(text, Flatten(front + [a, b]))
    requires EachFits(text, front, count, targetMax) && NeighboursCrowded(text, front, count, targetMax)
    requires front != [] ==> Tight(text, front[|front| - 1], prior, count, targetMax) && a != [] && a[0] == prior[0]
    requires FitsOrAlone(text, a, count, targetMax) && FitsOrAlone(text, b, count, targetMax)
             && Crowded(text, a, b, count, targetMax)
    ensures EachFits(text, front + [a, b], count, targetMax)
            && NeighboursCrowded(text, front + [a, b], count, targetMax)
  {
    hide Monotone, InText, CountUnits, Flatten, FitsOrAlone, Crowded;
    var groups := front + [a, b];
    if front != [] {
      PairInText(text, groups, |front| - 1);
      TightIsCrowded(text, front[|front| - 1], a, count, targetMax);
    }
    forall i, j | 0 <= i < |groups| && j == i + 1 < |groups|
      ensures Crowded(text, groups[i], groups[j], count, targetMax)
    {
      if j < |front| {
        assert groups[i] == front[i] && groups[j] == front[j];
      }
    }
  }

  /** Balancing the last two groups keeps what greedy grouping established. */
  lemma {:induction false} RebalancedIsGood(text: string, groups: seq<seq<Unit>>, count: string -> nat, targetMin: nat,
                                            targetMax: nat)
    requires Monotone(count) && InText(text, Flatten(groups)) && NonEmpty(groups)
    requires EachFits(text, groups, count, targetMax) && NeighboursTight(text, groups, count, targetMax)
    ensures GoodGroups(text, Flatten(groups), Rebalanced(text, groups, count, targetMin, targetMax), count, targetMax)
  {
    hide Monotone, InText, CountUnits, Flatten, FitsOrAlone, Crowded, Tight, Moved;
    AllCrowded(text, groups, count, targetMax);
    if targetMin > 0 && |groups| >= 2 {
      var last := |groups| - 1;
      var front, prior, terminal := groups[..last - 1], groups[last - 1], groups[last];
      assert groups == front + [prior, terminal];
      var n := Moved(text, prior, terminal, count, targetMin, targetMax);
      var cut := |prior| - n;
      var a, b := prior[..cut], prior[cut..] + terminal;
      RecutKeepsUnits(front, prior, terminal, cut);
      if n == 0 {
        assert a == prior && b == terminal;
      } else {
        MovedFits(text, prior, terminal, count, targetMin, targetMax);
        PairInText(text, groups, last - 1);
        MoveIsGood(text, prior, terminal, cut, count, targetMax);
        ReplacedIsGood(text, front, prior, a, b, count, targetMax);
      }
    }
  }

  /** Whatever the counter, the base groups are the units in order. */
  lemma {:induction false} BaseGroupsKeepUnits(text: string, units: seq<Unit>, count: string -> nat, targetMin: nat,
                                               targetMax: nat)
    ensures Flatten(BaseGroups(text, units, count, targetMin, targetMax)) == units
  {
    hide CountUnits, Flatten;
    GreedyNonEmpty(text, units, 0, [], count, targetMax);
    assert units[0..0] == [] && units[0..] == units;
    GreedyIsTight(text, units, 0, 0, count, targetMax);
    var groups := Greedy(text, units, 0, [], count, targetMax);
    if targetMin > 0 && |groups| >= 2 {
      var last := |groups| - 1;
      var prior, terminal := groups[last - 1], groups[last];
      var cut := |prior| - Moved(text, prior, terminal, count, targetMin, targetMax);
      assert groups == groups[..last - 1] + [prior, terminal];
      RecutKeepsUnits(groups[..last - 1], prior, terminal, cut);
    }
  }

  lemma {:induction false} BaseGroupsAreGood(text: string, units: seq<Unit>, count: string -> nat, targetMin: nat,
                                             targetMax: nat)
    requires Monotone(count) && InText(text, units)
    ensures GoodGroups(text, units, BaseGroups(text, units, count, targetMin, targetMax), count, targetMax)
  {
    GreedyNonEmpty(text, units, 0, [], count, targetMax);
    assert units[0..0] == [] && units[0..] == units;
    GreedyIsTight(text, units, 0, 0, count, targetMax);
    RebalancedIsGood(text, Greedy(text, units, 0, [], count, targetMax), count, targetMin, targetMax);
  }

  lemma {:induction false} TailFromIsLongest(text: string, units: seq<Unit>, k: nat, count: string -> nat, overlap: nat)
    requires Monotone(count) && InText(text, units) && k <= |units|
    requires k == |units| || CountUnits(text, units[k..], count) <= overlap
    ensures var j := TailFrom(text, units, k, count, overlap);
            && (j == |units| || CountUnits(text, units[j..], count) <= overlap)
            && forall m | 0 <= m < j :: CountUnits(text, units[m..], count) > overlap
    decreases k
  {
    hide InText, Monotone, CountUnits;
    if k > 0 {
      if CountUnits(text, units[k - 1..], count) > overlap {
        forall m | 0 <= m < k ensures CountUnits(text, units[m..], count) > overlap {
          InTextPart(text, units, m, |units|);
          assert units[m..|units|] == units[m..];
          CountPart(text, units[m..], k - 1 - m, |units| - m, count);
          assert units[m..][k - 1 - m..|units| - m] == units[k - 1..];
        }
      } else {
        TailFromIsLongest(text, units, k - 1, count, overlap);
      }
    }
  }

  lemma {:induction false} TrimFromIsLeast(text: string, units: seq<Unit>, j: nat, group: seq<Unit>,
                                           count: string -> nat, targetMax: nat)
    requires j <= |units| && group != []
    ensures var k := TrimFrom(text, units, j, group, count, targetMax);
            && (k == |units| || CountUnits(text, units[k..] + group, count) <= targetMax)
            && forall m | j <= m < k :: CountUnits(text, units[m..] + group, count) > targetMax
    decreases |units| - j
  {
    hide CountUnits;
    if j < |units| && CountUnits(text, units[j..] + group, count) > targetMax {
      TrimFromIsLeast(text, units, j + 1, group, count, targetMax);
    }
  }

  /** prior[k..] is a proper suffix within the overlap and fits together with `group`, and no longer
      suffix does both. */
  ghost predicate LongestOverlap(text: string, prior: seq<Unit>, k: nat, group: seq<Unit>, count: string -> nat,
                                 targetMax: nat, overlap: nat) {
    && 0 < k <= |prior| && group != []
    && (k < |prior| ==>
          CountUnits(text, prior[k..], count) <= overlap && CountUnits(text, prior[k..] + group, count) <= targetMax)
    && (forall m | 0 <= m < k ::
          CountUnits(text, prior[m..], count) > overlap || CountUnits(text, prior[m..] + group, count) > targetMax)
  }

  lemma {:induction false} OverlapIsLongest(text: string, prior: seq<Unit>, group: seq<Unit>, count: string -> nat,
                                            targetMax: nat, overlap: nat)
    requires Monotone(count) && InText(text, prior) && Crowded(text, prior, group, count, targetMax)
    ensures LongestOverlap(text, prior, OverlapStart(text, prior, group, count, targetMax, overlap), group, count,
                           targetMax, overlap)
  {
    hide InText, Monotone, CountUnits, TailFrom, TrimFrom;
    var j := TailFrom(text, prior, |prior|, count, overlap);
    var k := TrimFrom(text, prior, j, group, count, targetMax);
    TailFromIsLongest(text, prior, |prior|, count, overlap);
    TrimFromIsLeast(text, prior, j, group, count, targetMax);
    assert prior[0..] == prior;
    if k < |prior| {
      assert prior[j..|prior|] == prior[j..];
      InTextPart(text, prior, j, |prior|);
      CountPart(text, prior[j..], k - j, |prior| - j, count);
      assert prior[j..][k - j..|prior| - j] == prior[k..];
    }
  }

  lemma {:induction false} WindowsAt(text: string, groups: seq<seq<Unit>>, n: nat, count: string -> nat, targetMax: nat,
                                     overlap: nat)
    requires NonEmpty(groups) && n <= |groups|
    ensures var windows := WindowsUpTo(text, groups, n, count, targetMax, overlap);
            && |windows| == n
            && forall k | 0 <= k < n :: windows[k] == Window(text, groups, k, count, targetMax, overlap)
  {
    hide Window;
    if n > 0 {
      WindowsAt(text, groups, n - 1, count, targetMax, overlap);
    }
  }

  /** A window and the one before it, given the base groups they come from. */
  ghost predicate Advances(earlier: seq<Unit>, later: seq<Unit>) {
    && earlier != [] && later != []
    && earlier[0].start < later[0].start
    && earlier[|earlier| - 1].end < later[|later| - 1].end
  }

  lemma {:induction false} WindowFits(text: string, groups: seq<seq<Unit>>, i: nat, count: string -> nat,
                                      targetMax: nat, overlap: nat)
    requires Monotone(count) && InText(text, Flatten(groups)) && NonEmpty(groups) && i < |groups|
    requires GoodGroups(text, Flatten(groups), groups, count, targetMax)
    ensures FitsOrAlone(text, Window(text, groups, i, count, targetMax, overlap), count, targetMax)
    ensures i > 0 && overlap > 0 ==>
              LongestOverlap(text, groups[i - 1],
                             OverlapStart(text, groups[i - 1], groups[i], count, targetMax, overlap),
                             groups[i], count, targetMax, overlap)
  {
    hide InText, Monotone, CountUnits, Flatten, OverlapStart;
    assert [] + groups[i] == groups[i];
    if i > 0 && overlap > 0 {
      assert Crowded(text, groups[i - 1], groups[i], count, targetMax);
      PairInText(text, groups, i - 1);
      assert (groups[i - 1] + groups[i])[0..|groups[i - 1]|] == groups[i - 1];
      InTextPart(text, groups[i - 1] + groups[i], 0, |groups[i - 1]|);
      OverlapIsLongest(text, groups[i - 1], groups[i], count, targetMax, overlap);
    }
  }

  lemma {:induction false} PairOrder(text: string, a: seq<Unit>, b: seq<Unit>, k: nat)
    requires InText(text, a + b) && k < |a| && b != []
    ensures a[k].start < b[0].start && (k > 0 ==> a[0].start < a[k].start)
    ensures a[|a| - 1].end < b[|b| - 1].end
  {
    var pair := a + b;
    assert pair[0] == a[0] && pair[k] == a[k] && pair[|a|] == b[0];
    assert pair[|a| - 1] == a[|a| - 1] && pair[|pair| - 1] == b[|b| - 1];
  }

  /** Whatever the counter, a window reaches over all of its base group and ends with it. */
  lemma {:induction false} WindowReach(text: string, groups: seq<seq<Unit>>, i: nat, count: string -> nat,
                                       targetMax: nat, overlap: nat)
    requires InText(text, Flatten(groups)) && NonEmpty(groups) && i < |groups|
    ensures var window := Window(text, groups, i, count, targetMax, overlap);
            && window != [] && window[0].start <= groups[i][0].start
            && window[|window| - 1] == groups[i][|groups[i]| - 1]
  {
    hide InText, CountUnits, Flatten, OverlapStart;
    assert groups[i] != [];
    var window := Window(text, groups, i, count, targetMax, overlap);
    assert window[|window| - 1] == groups[i][|groups[i]| - 1];
    if i > 0 {
      var prior := groups[i - 1];
      PairInText(text, groups, i - 1);
      var k := OverlapStart(text, prior, groups[i], count, targetMax, overlap);
      if overlap > 0 && k < |prior| {
        PairOrder(text, prior, groups[i], k);
        assert window[0] == prior[k];
      }
    }
  }

  /** A window begins after the first unit of the group before it. */
  lemma {:induction false} WindowStart(text: string, groups: seq<seq<Unit>>, i: nat, count: string -> nat,
                                       targetMax: nat, overlap: nat)
    requires Monotone(count) && InText(text, Flatten(groups)) && NonEmpty(groups) && 0 < i < |groups|
    requires GoodGroups(text, Flatten(groups), groups, count, targetMax)
    ensures groups[i - 1][0].start < Window(text, groups, i, count, targetMax, overlap)[0].start
  {
    hide Monotone, InText, CountUnits, Flatten, OverlapStart, GoodGroups;
    var prior := groups[i - 1];
    PairInText(text, groups, i - 1);
    PairOrder(text, prior, groups[i], 0);
    var k := OverlapStart(text, prior, groups[i], count, targetMax, overlap);
    if overlap > 0 && k < |prior| {
      WindowFits(text, groups, i, count, targetMax, overlap);
      PairOrder(text, prior, groups[i], k);
      assert Window(text, groups, i, count, targetMax, overlap)[0] == prior[k];
    }
  }

  lemma {:induction false} WindowAdvances(text: string, groups: seq<seq<Unit>>, i: nat, count: string -> nat,
                                          targetMax: nat, overlap: nat)
    requires Monotone(count) && InText(text, Flatten(groups)) && NonEmpty(groups) && i + 1 < |groups|
    requires GoodGroups(text, Flatten(groups), groups, count, targetMax)
    ensures Advances(Window(text, groups, i, count, targetMax, overlap),
                     Window(text, groups, i + 1, count, targetMax, overlap))
  {
    hide Monotone, InText, CountUnits, Flatten, OverlapOf, GoodGroups;
    WindowReach(text, groups, i, count, targetMax, overlap);
    WindowReach(text, groups, i + 1, count, targetMax, overlap);
    WindowStart(text, groups, i + 1, count, targetMax, overlap);
    PairInText(text, groups, i);
    PairOrder(text, groups[i], groups[i + 1], 0);
  }

  /** Overlap windows, for every chain of units and every monotone counter: without its overlap each
      window is a base group and the base groups are the units in order; a window is within the target
      unless it is one unit; an overlap is the longest proper suffix of the previous base group within
      the overlap size that still fits; starts and ends strictly increase, so no window contains the
      one before it. */
  lemma {:induction false} OverlapWindows(text: string, units: seq<Unit>, count: string -> nat, targetMin: nat,
                                          targetMax: nat, overlap: nat)
    requires Monotone(count) && InText(text, units)
    ensures NonEmpty(BaseGroups(text, units, count, targetMin, targetMax))
    ensures var groups := BaseGroups(text, units, count, targetMin, targetMax);
            var windows := BoundedUnitGroups(text, units, count, targetMin, targetMax, overlap);
            && Flatten(groups) == units && |windows| == |groups|
            && (forall i | 0 <= i < |windows| ::
                  && windows[i] == Window(text, groups, i, count, targetMax, overlap)
                  && FitsOrAlone(text, windows[i], count, targetMax))
            && (forall i | 0 < i < |windows| && overlap > 0 ::
                  LongestOverlap(text, groups[i - 1],
                                 OverlapStart(text, groups[i - 1], groups[i], count, targetMax, overlap),
                                 groups[i], count, targetMax, overlap))
            && (forall i, j | 0 <= i < |windows| && j == i + 1 < |windows| :: Advances(windows[i], windows[j]))
  {
    hide Monotone, InText, CountUnits, Flatten, OverlapStart, Advances, LongestOverlap, FitsOrAlone, Window, GoodGroups;
    BaseGroupsNonEmpty(text, units, count, targetMin, targetMax);
    BaseGroupsAreGood(text, units, count, targetMin, targetMax);
    var groups := BaseGroups(text, units, count, targetMin, targetMax);
    WindowsAt(text, groups, |groups|, count, targetMax, overlap);
    assert Flatten(groups) == units by { GoodKeepsUnits(text, units, groups, count, targetMax); }
    forall i | 0 <= i < |groups| {
      WindowFits(text, groups, i, count, targetMax, overlap);
    }
    forall i, j | 0 <= i < |groups| && j == i + 1 < |groups|
      ensures Advances(Window(text, groups, i, count, targetMax, overlap),
                       Window(text, groups, j, count, targetMax, overlap))
    {
      WindowAdvances(text, groups, i, count, targetMax, overlap);
    }
  }

  // ----- the rule of overlap, whatever the counter -----

  /** The tail of `prior` grew backwards to `j`, and one more unit would exceed the overlap. */
  ghost predicate TailRule(text: string, prior: seq<Unit>, j: nat, count: string -> nat, overlap: nat) {
    && j <= |prior| && (forall m | j <= m < |prior| :: CountUnits(text, prior[m..], count) <= overlap)
    && (j > 0 ==> CountUnits(text, prior[j - 1..], count) > overlap)
  }

  /** Leading units of the tail were dropped down to `k`, where what is left fits together with the group. */
  ghost predicate TrimRule(text: string, prior: seq<Unit>, group: seq<Unit>, j: nat, k: nat, count: string -> nat,
                           targetMax: nat)
    requires group != []
  {
    && j <= k <= |prior| && (forall m | j <= m < k :: CountUnits(text, prior[m..] + group, count) > targetMax)
    && (k < |prior| ==> CountUnits(text, prior[k..] + group, count) <= targetMax)
  }

  ghost predicate OverlapRule(text: string, prior: seq<Unit>, group: seq<Unit>, k: nat, count: string -> nat,
                              targetMax: nat, overlap: nat)
    requires group != []
  {
    exists j: nat :: TailRule(text, prior, j, count, overlap) && TrimRule(text, prior, group, j, k, count, targetMax)
  }

  lemma {:induction false} TailFollowsRule(text: string, prior: seq<Unit>, n: nat, count: string -> nat, overlap: nat)
    requires n <= |prior| && forall m | n <= m < |prior| :: CountUnits(text, prior[m..], count) <= overlap
    ensures TailRule(text, prior, TailFrom(text, prior, n, count, overlap), count, overlap)
    decreases n
  {
    hide CountUnits;
    if n > 0 && CountUnits(text, prior[n - 1..], count) <= overlap {
      TailFollowsRule(text, prior, n - 1, count, overlap);
    }
  }

  /** The tail and its trimming follow the two rules, and nothing else does. */
  lemma {:induction false} OverlapIsExact(text: string, prior: seq<Unit>, group: seq<Unit>, k: nat,
                                          count: string -> nat, targetMax: nat, overlap: nat)
    requires group != []
    ensures OverlapRule(text, prior, group, k, count, targetMax, overlap) <==>
              k == OverlapStart(text, prior, group, count, targetMax, overlap)
  {
    hide CountUnits;
    var j := TailFrom(text, prior, |prior|, count, overlap);
    TailFollowsRule(text, prior, |prior|, count, overlap);
    TrimFromIsLeast(text, prior, j, group, count, targetMax);
    hide TailFrom, TrimFrom;
    forall i: nat | TailRule(text, prior, i, count, overlap) ensures i == j {
    }
  }

  /** Every group with the overlap that it takes over from the group before it. */
  ghost predicate Overlaps(text: string, groups: seq<seq<Unit>>, windows: seq<seq<Unit>>, count: string -> nat,
                           targetMax: nat, overlap: nat)
    requires NonEmpty(groups)
  {
    && |windows| == |groups|
    && forall i | 0 <= i < |groups| ::
         if i == 0 || overlap == 0 then windows[i] == groups[i]
         else TakesOver(text, groups[i - 1], groups[i], windows[i], count, targetMax, overlap)
  }

  /** The window is the group behind the part of the group before it that the rule lets it take over. */
  ghost predicate TakesOver(text: string, prior: seq<Unit>, group: seq<Unit>, window: seq<Unit>, count: string -> nat,
                            targetMax: nat, overlap: nat)
    requires group != []
  {
    exists k: nat :: && OverlapRule(text, prior, group, k, count, targetMax, overlap)
                     && k <= |prior| && window == prior[k..] + group
  }

  lemma {:induction false} TakesOverExactly(text: string, prior: seq<Unit>, group: seq<Unit>, window: seq<Unit>,
                                            count: string -> nat, targetMax: nat, overlap: nat)
    requires group != []
    ensures TakesOver(text, prior, group, window, count, targetMax, overlap) <==>
              window == prior[OverlapStart(text, prior, group, count, targetMax, overlap)..] + group
  {
    hide OverlapRule, OverlapStart;
    var start := OverlapStart(text, prior, group, count, targetMax, overlap);
    OverlapIsExact(text, prior, group, start, count, targetMax, overlap);
    forall k: nat | OverlapRule(text, prior, group, k, count, targetMax, overlap) ensures k == start {
      OverlapIsExact(text, prior, group, k, count, targetMax, overlap);
    }
  }

  lemma {:induction false} OverlapsAreExact(text: string, groups: seq<seq<Unit>>, windows: seq<seq<Unit>>,
                                            count: string -> nat, targetMax: nat, overlap: nat)
    requires NonEmpty(groups)
    ensures Overlaps(text, groups, windows, count, targetMax, overlap) <==>
              windows == WindowsUpTo(text, groups, |groups|, count, targetMax, overlap)
  {
    hide TakesOver, OverlapStart;
    WindowsAt(text, groups, |groups|, count, targetMax, overlap);
    if |windows| == |groups| {
      forall i | 0 <= i < |groups|
        ensures windows[i] == Window(text, groups, i, count, targetMax, overlap) <==>
                  if i == 0 || overlap == 0 then windows[i] == groups[i]
                  else TakesOver(text, groups[i - 1], groups[i], windows[i], count, targetMax, overlap)
      {
        assert [] + groups[i] == groups[i];
        if i > 0 && overlap > 0 {
          TakesOverExactly(text, groups[i - 1], groups[i], windows[i], count, targetMax, overlap);
        }
      }
    }
    hide WindowsUpTo, Window;
  }

  /** The windows of a list of units, whatever the counter: group greedily, balance the tail by single moves, and give
      every group the overlap that the rule allows. */
  lemma {:induction false} BoundUnitsIsExact(text: string, units: seq<Unit>, windows: seq<seq<Unit>>,
                                             count: string -> nat, targetMin: nat, targetMax: nat, overlap: nat)
    ensures windows == BoundedUnitGroups(text, units, count, targetMin, targetMax, overlap) <==>
              exists groups :: && IsBase(text, units, groups, count, targetMin, targetMax) && NonEmpty(groups)
                               && Overlaps(text, groups, windows, count, targetMax, overlap)
  {
    var base := BaseGroups(text, units, count, targetMin, targetMax);
    BaseGroupsNonEmpty(text, units, count, targetMin, targetMax);
    OverlapsAreExact(text, base, windows, count, targetMax, overlap);
    hide BaseGroups, Overlaps, IsBase;
    forall groups ensures IsBase(text, units, groups, count, targetMin, targetMax) <==> groups == base {
      BaseGroupsAreExact(text, units, groups, count, targetMin, targetMax);
    }
    hide WindowsUpTo;
  }

  lemma {:induction false} GoodKeepsUnits(text: string, units: seq<Unit>, groups: seq<seq<Unit>>, count: string -> nat,
                                          targetMax: nat)
    requires GoodGroups(text, units, groups, count, targetMax)
    ensures Flatten(groups) == units
  {}

  // ----- the loops -----

  method GroupUnits(text: string, units: seq<Unit>, count: string -> nat, targetMax: nat)
      returns (groups: seq<seq<Unit>>)
    ensures groups == Greedy(text, units, 0, [], count, targetMax)
  {
    hide CountUnits;
    groups := [];
    var current: seq<Unit> := [];
    var i := 0;
    while i < |units|
      invariant 0 <= i <= |units|
      invariant groups + Greedy(text, units, i, current, count, targetMax) == Greedy(text, units, 0, [], count,
                targetMax)
    {
      var proposed := current + [units[i]];
      if current != [] && CountUnits(text, proposed, count) > targetMax {
        ghost var later := Greedy(text, units, i + 1, [units[i]], count, targetMax);
        Assoc(groups, [current], later);
        groups := groups + [current];
        current := [units[i]];
      } else {
        current := proposed;
      }
      i := i + 1;
    }
    if current != [] {
      groups := groups + [current];
    }
  }

  /** The list of groups, whose last two are edited in place. */
  class UnitGroups {
    var groups: seq<seq<Unit>>

    constructor (groups: seq<seq<Unit>>)
      ensures this.groups == groups
    {
      this.groups := groups;
    }

    method RebalanceTerminalGroup(text: string, count: string -> nat, targetMin: nat, targetMax: nat)
      requires NonEmpty(groups)
      modifies this
      ensures groups == Rebalanced(text, old(groups), count, targetMin, targetMax)
      ensures Balances(text, old(groups), groups, count, targetMin, targetMax)
    {
      hide CountUnits, Balances, Rebalanced;
      if targetMin == 0 || |groups| < 2 {
        UnbalancedStays(text, groups, count, targetMin, targetMax);
        return;
      }
      ghost var before := groups;
      var last := |groups| - 1;
      var prior, terminal := groups[last - 1], groups[last];
      ghost var prior0, terminal0 := prior, terminal;
      assert prior0[|prior0|..] + terminal0 == terminal0 && prior0[..|prior0|] == prior0;
      while |prior| > 1 && CountUnits(text, terminal, count) < targetMin
        invariant |prior| <= |prior0| && terminal != []
        invariant prior == prior0[..|prior|] && terminal == prior0[|prior|..] + terminal0
        invariant groups == before[..last - 1] + [prior, terminal]
        invariant forall k | |prior| < k <= |prior0| :: MayMove(text, prior0, terminal0, k, count, targetMin, targetMax)
        decreases |prior|
      {
        var moved := prior[|prior| - 1];
        var candidatePrior := prior[..|prior| - 1];
        assert prior0[|prior| - 1..] + terminal0 == [moved] + terminal && candidatePrior == prior0[..|prior| - 1];
        if CountUnits(text, [moved] + terminal, count) > targetMax
            || CountUnits(text, candidatePrior, count) < targetMin {
          break;
        }
        prior, terminal := candidatePrior, [moved] + terminal;
        groups := groups[..last - 1] + [prior, terminal];
      }
      assert !MayMove(text, prior0, terminal0, |prior|, count, targetMin, targetMax);
      hide MayMove;
      CutBalances(text, before, |prior|, count, targetMin, targetMax);
    }
  }

  lemma {:induction false} UnbalancedStays(text: string, groups: seq<seq<Unit>>, count: string -> nat, targetMin: nat,
                                           targetMax: nat)
    requires NonEmpty(groups) && (targetMin == 0 || |groups| < 2)
    ensures Balances(text, groups, groups, count, targetMin, targetMax)
    ensures groups == Rebalanced(text, groups, count, targetMin, targetMax)
  {
    hide BalancedCut, Moved;
  }

  lemma {:induction false} CutBalances(text: string, before: seq<seq<Unit>>, cut: nat, count: string -> nat,
                                       targetMin: nat, targetMax: nat)
    requires NonEmpty(before) && targetMin > 0 && |before| >= 2
    requires BalancedCut(text, before[|before| - 2], before[|before| - 1], cut, count, targetMin, targetMax)
    ensures cut <= |before[|before| - 2]|
    ensures var prior, terminal := before[|before| - 2], before[|before| - 1];
      var after := before[..|before| - 2] + [prior[..cut], prior[cut..] + terminal];
      && Balances(text, before, after, count, targetMin, targetMax)
      && after == Rebalanced(text, before, count, targetMin, targetMax)
  {
    hide MayMove, Moved;
    var prior, terminal := before[|before| - 2], before[|before| - 1];
    var after := before[..|before| - 2] + [prior[..cut], prior[cut..] + terminal];
    assert Balances(text, before, after, count, targetMin, targetMax);
    hide Balances, Rebalanced;
    BalancingIsExact(text, before, after, count, targetMin, targetMax);
  }

  method ApplyOverlap(text: string, groups: seq<seq<Unit>>, count: string -> nat, targetMax: nat, overlap: nat)
    returns (output: seq<seq<Unit>>)
    requires NonEmpty(groups)
    ensures output == WindowsUpTo(text, groups, |groups|, count, targetMax, overlap)
  {
    hide OverlapOf;
    output := [];
    for index := 0 to |groups|
      invariant output == WindowsUpTo(text, groups, index, count, targetMax, overlap)
    {
      var tail := OverlapTail(text, groups, index, count, targetMax, overlap);
      output := output + [tail + groups[index]];
    }
  }

  /** The two inner loops: grow the tail backwards, then drop from its front. */
  method OverlapTail(text: string, groups: seq<seq<Unit>>, index: nat, count: string -> nat, targetMax: nat,
                     overlap: nat)
    returns (tail: seq<Unit>)
    requires NonEmpty(groups) && index < |groups|
    ensures tail == OverlapOf(text, groups, index, count, targetMax, overlap)
  {
    hide CountUnits;
    tail := [];
    if index > 0 && overlap > 0 {
      var prior, group := groups[index - 1], groups[index];
      var k := |prior|;
      while k > 0
        invariant 0 <= k <= |prior| && tail == prior[k..]
        invariant TailFrom(text, prior, k, count, overlap) == TailFrom(text, prior, |prior|, count, overlap)
      {
        var candidate := [prior[k - 1]] + tail;
        assert candidate == prior[k - 1..];
        if CountUnits(text, candidate, count) > overlap {
          break;
        }
        tail := candidate;
        k := k - 1;
      }
      ghost var j := k;
      while tail != [] && CountUnits(text, tail + group, count) > targetMax
        invariant j <= k <= |prior| && tail == prior[k..]
        invariant TrimFrom(text, prior, k, group, count, targetMax) == TrimFrom(text, prior, j, group, count, targetMax)
        decreases |prior| - k
      {
        tail := tail[1..];
        k := k + 1;
      }
    }
  }

  method BoundUnits(text: string, units: seq<Unit>, count: string -> nat, targetMin: nat, targetMax: nat, overlap: nat)
    returns (windows: seq<seq<Unit>>)
    ensures windows == BoundedUnitGroups(text, units, count, targetMin, targetMax, overlap)
  {
    var greedy := GroupUnits(text, units, count, targetMax);
    GreedyNonEmpty(text, units, 0, [], count, targetMax);
    var list := new UnitGroups(greedy);
    list.RebalanceTerminalGroup(text, count, targetMin, targetMax);
    BaseGroupsNonEmpty(text, units, count, targetMin, targetMax);
    windows := ApplyOverlap(text, list.groups, count, targetMax, overlap);
  }
}
