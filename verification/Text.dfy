/** Text as the segmentation code sees it: whitespace, line breaks, slices, blank trimming
    and token counters. */
module Text {

  /** The characters that str.isspace, str.split and the regular expression class \s agree on. */
  predicate IsSpace(c: char) {
    var n := c as int;
    || 9 <= n <= 13 || 28 <= n <= 32 || n == 0x85 || n == 0xa0 || n == 0x1680
    || 0x2000 <= n <= 0x200a || n == 0x2028 || n == 0x2029 || n == 0x202f || n == 0x205f || n == 0x3000
  }

  /** The characters at which str.splitlines ends a line; all of them are whitespace. */
  predicate IsLineBreak(c: char) {
    var n := c as int;
    10 <= n <= 13 || 28 <= n <= 30 || n == 0x85 || n == 0x2028 || n == 0x2029
  }

  predicate Blank(s: string) {
    forall i | 0 <= i < |s| :: IsSpace(s[i])
  }

  /** s[from:to] with clamping, total as in Python. */
  function Slice(s: string, from: nat, to: nat): string {
    var hi := if to <= |s| then to else |s|;
    if from <= hi then s[from..hi] else ""
  }

  function StripLeft(s: string): string {
    if s != "" && IsSpace(s[0]) then StripLeft(s[1..]) else s
  }

  function StripRight(s: string): string {
    if s != "" && IsSpace(s[|s| - 1]) then StripRight(s[..|s| - 1]) else s
  }

  function Strip(s: string): string {
    StripRight(StripLeft(s))
  }

  /** Number of words: a word starts at a non-space character that opens the text or follows a space.
      This is the length of str.split(). */
  function WordCount(s: string): nat {
    if s == "" then 0
    else
      var n := |s| - 1;
      WordCount(s[..n]) + (if !IsSpace(s[n]) && (n == 0 || IsSpace(s[n - 1])) then 1 else 0)
  }

  /** A counter never counts more in a part of a text than in the whole. */
  ghost predicate Monotone(count: string -> nat) {
    forall s: string, i: nat, j: nat | i <= j <= |s| :: count(s[i..j]) <= count(s)
  }

  ghost predicate CountsBlankAsZero(count: string -> nat) {
    forall s: string | Blank(s) :: count(s) == 0
  }

  lemma {:induction false} SliceMonotone(count: string -> nat, s: string, i: nat, j: nat, lo: nat, hi: nat)
    requires Monotone(count)
    requires lo <= i <= j <= hi <= |s|
    ensures count(Slice(s, i, j)) <= count(Slice(s, lo, hi))
  {
    var whole := s[lo..hi];
    var part := whole[i - lo..j - lo];
    assert forall k | 0 <= k < j - i :: part[k] == whole[i - lo + k] == s[i + k];
    assert part == s[i..j];
  }

  lemma {:induction false} WordCountPrefix(s: string, j: nat)
    requires j <= |s|
    ensures WordCount(s[..j]) <= WordCount(s)
    decreases |s|
  {
    if j == |s| {
      assert s[..j] == s;
    } else {
      assert s[..|s| - 1][..j] == s[..j];
      WordCountPrefix(s[..|s| - 1], j);
    }
  }

  lemma {:induction false} WordCountTail(s: string)
    requires s != ""
    ensures WordCount(s[1..]) <= WordCount(s)
    ensures |s| >= 2 && !IsSpace(s[0]) && !IsSpace(s[1]) ==> WordCount(s[1..]) == WordCount(s)
    decreases |s|
  {
    var n := |s| - 1;
    if n >= 1 {
      var front := s[..n];
      assert s[1..][..n - 1] == front[1..];
      WordCountTail(front);
      if n == 1 {
        assert front == [s[0]] && s[1..] == [s[1]];
        assert WordCount([s[0]][..0]) == 0 && WordCount([s[1]][..0]) == 0;
      }
    }
  }

  lemma {:induction false} WordCountSuffix(s: string, i: nat)
    requires i <= |s|
    ensures WordCount(s[i..]) <= WordCount(s)
    decreases i
  {
    if i == 0 {
      assert s[0..] == s;
    } else {
      WordCountSuffix(s, i - 1);
      WordCountTail(s[i - 1..]);
      assert s[i - 1..][1..] == s[i..];
    }
  }

  lemma {:induction false} WordCountBlank(s: string)
    requires Blank(s)
    ensures WordCount(s) == 0
  {
    if s != "" {
      WordCountBlank(s[..|s| - 1]);
    }
  }

  /** The deterministic counter meets both demands the segmentation theorems make of a counter. */
  lemma {:induction false} WordCountIsACounter()
    ensures Monotone(WordCount) && CountsBlankAsZero(WordCount)
  {
    forall s: string, i: nat, j: nat | i <= j <= |s|
      ensures WordCount(s[i..j]) <= WordCount(s)
    {
      WordCountPrefix(s, j);
      WordCountSuffix(s[..j], i);
      assert s[..j][i..] == s[i..j];
    }
    forall s: string | Blank(s) ensures WordCount(s) == 0 {
      WordCountBlank(s);
    }
  }
}
