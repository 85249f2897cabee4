/** The Python `str` operations the analyzer relies on: `isspace`, `strip`,
    `startswith` and `endswith`, over Dafny strings (sequences of Unicode
    scalar values). */
module PyStr {

  /** Python's `str.isspace` on one character: the characters that `strip()`
      with no argument removes (bidirectional class WS, B or S, or general
      category Zs). */
  predicate IsSpace(c: char) {
    var n := c as int;
    || (0x09 <= n <= 0x0D) || (0x1C <= n <= 0x20) || n == 0x85 || n == 0xA0
    || n == 0x1680 || (0x2000 <= n <= 0x200A) || n == 0x2028 || n == 0x2029
    || n == 0x202F || n == 0x205F || n == 0x3000
  }

  predicate AllSpace(s: string) {
    forall i :: 0 <= i < |s| ==> IsSpace(s[i])
  }

  /** Neither the first nor the last character is whitespace. */
  predicate NoEdgeSpace(s: string) {
    s == [] || (!IsSpace(s[0]) && !IsSpace(s[|s| - 1]))
  }

  /** Python's `s.startswith(prefix)`. */
  predicate StartsWith(s: string, prefix: string) {
    |prefix| <= |s| && s[..|prefix|] == prefix
  }

  /** Python's `s.endswith(suffix)`. */
  predicate EndsWith(s: string, suffix: string) {
    |suffix| <= |s| && s[|s| - |suffix|..] == suffix
  }

  /** Python's `word in s`. */
  predicate Contains(s: string, word: string) {
    exists k :: 0 <= k <= |s| && OccursAt(s, k, word)
  }

  /** `word` occurs in `s` at offset `k`. */
  predicate OccursAt(s: string, k: nat, word: string) {
    k + |word| <= |s| && s[k..k + |word|] == word
  }

  /** Every character of `s` in `[lo, hi)` is whitespace. */
  predicate SpaceBetween(s: string, lo: nat, hi: nat)
    requires lo <= hi <= |s|
  {
    forall i :: lo <= i < hi ==> IsSpace(s[i])
  }

  /** The forward scan of `strip`: the first index at or after `i` that does
      not hold whitespace, or `|s|`. */
  function SkipSpace(s: string, i: nat): (n: nat)
    requires i <= |s|
    ensures i <= n <= |s| && SpaceBetween(s, i, n)
    ensures n == |s| || !IsSpace(s[n])
    decreases |s| - i
  {
    if i < |s| && IsSpace(s[i]) then SkipSpace(s, i + 1) else i
  }

  /** The backward scan of `strip`: the end of `s[lo..j]` once trailing
      whitespace is dropped. */
  function SkipSpaceBack(s: string, lo: nat, j: nat): (n: nat)
    requires lo <= j <= |s|
    ensures lo <= n <= j && SpaceBetween(s, n, j)
    ensures n == lo || !IsSpace(s[n - 1])
    decreases j
  {
    if lo < j && IsSpace(s[j - 1]) then SkipSpaceBack(s, lo, j - 1) else j
  }

  /** Where the text `strip` keeps begins. */
  function StripStart(s: string): nat
    ensures StripStart(s) <= |s|
  {
    SkipSpace(s, 0)
  }

  /** Where the text `strip` keeps ends. */
  function StripEnd(s: string): nat
    ensures StripStart(s) <= StripEnd(s) <= |s|
  {
    SkipSpaceBack(s, StripStart(s), |s|)
  }

  /** Python's `s.strip()`: the part of `s` between its leading and its
      trailing whitespace, which has whitespace at neither edge. */
  function Strip(s: string): (r: string)
    ensures NoEdgeSpace(r)
  {
    s[StripStart(s)..StripEnd(s)]
  }

  /** Number of characters of `s` that are not whitespace. */
  function NonSpaceCount(s: string): (n: nat)
    ensures n <= |s|
  {
    if s == [] then 0 else (if IsSpace(s[0]) then 0 else 1) + NonSpaceCount(s[1..])
  }

  /** A common prefix does not change whether one string starts with another. */
  lemma StartsWithCancel(x: string, y: string, z: string)
    ensures StartsWith(x + y, x + z) <==> StartsWith(y, z)
  {
    if StartsWith(y, z) {
      assert (x + y)[..|x + z|] == x + y[..|z|];
    }
    if StartsWith(x + y, x + z) {
      assert y[..|z|] == (x + y)[..|x + z|][|x|..];
    }
  }

  /** Text after a long enough head does not change whether it starts with `p`. */
  lemma StartsWithExtend(y: string, w: string, p: string)
    requires |p| <= |y|
    ensures StartsWith(y + w, p) <==> StartsWith(y, p)
  {
  }

  /** One mismatching character rules a prefix out. */
  lemma MismatchAt(s: string, p: string, k: nat)
    requires k < |s| && k < |p| && s[k] != p[k]
    ensures !StartsWith(s, p)
  {
  }

  /** The forward scan stops at the first non-whitespace character. */
  lemma SkipSpaceIs(s: string, i: nat, k: nat)
    requires i <= k <= |s| && SpaceBetween(s, i, k)
    requires k == |s| || !IsSpace(s[k])
    ensures SkipSpace(s, i) == k
  {
  }

  /** The backward scan stops after the last non-whitespace character. */
  lemma SkipSpaceBackIs(s: string, lo: nat, j: nat, k: nat)
    requires lo <= k <= j <= |s| && SpaceBetween(s, k, j)
    requires k == lo || !IsSpace(s[k - 1])
    ensures SkipSpaceBack(s, lo, j) == k
  {
  }

  /** `strip` recovers any text without edge whitespace from between two
      whitespace runs; in particular its result is unique. */
  lemma StripOf(front: string, t: string, back: string)
    requires AllSpace(front) && AllSpace(back) && NoEdgeSpace(t)
    ensures Strip(front + t + back) == t
  {
    var s := front + t + back;
    var k := |front| + |t|;
    assert SpaceBetween(s, 0, |front|) by {
      forall i | 0 <= i < |front| ensures IsSpace(s[i]) {
        assert s[i] == front[i];
      }
    }
    assert SpaceBetween(s, k, |s|) by {
      forall i | k <= i < |s| ensures IsSpace(s[i]) {
        assert s[i] == back[i - k];
      }
    }
    if t == [] {
      SkipSpaceIs(s, 0, |s|);
      SkipSpaceBackIs(s, |s|, |s|, |s|);
    } else {
      assert s[|front|] == t[0] && s[k - 1] == t[|t| - 1];
      SkipSpaceIs(s, 0, |front|);
      SkipSpaceBackIs(s, |front|, |s|, k);
      assert s[|front|..k] == t;
    }
  }

  /** `strip` is idempotent. */
  lemma StripIdempotent(s: string)
    ensures Strip(Strip(s)) == Strip(s)
  {
  }

  /** Extra whitespace around the input does not change what `strip` returns. */
  lemma StripPadded(front: string, s: string, back: string)
    requires AllSpace(front) && AllSpace(back)
    ensures Strip(front + s + back) == Strip(s)
  {
    var lead, r, trail := StripParts(s);
    calc {
      front + s + back;
      front + (lead + r + trail) + back;
      (front + lead) + r + (trail + back);
    }
    AllSpaceAppend(front, lead);
    AllSpaceAppend(trail, back);
    StripOf(front + lead, r, trail + back);
  }

  /** Every string splits into a whitespace run, its `strip`, and a whitespace run. */
  lemma StripParts(s: string) returns (lead: string, r: string, trail: string)
    ensures s == lead + r + trail && r == Strip(s)
    ensures AllSpace(lead) && AllSpace(trail)
  {
    var i, j := StripStart(s), StripEnd(s);
    lead, r, trail := s[..i], s[i..j], s[j..];
    assert s == lead + r + trail by {
      assert s == s[..i] + s[i..j] + s[j..];
    }
    assert AllSpace(lead) by {
      assert SpaceBetween(s, 0, i);
    }
    assert AllSpace(trail) by {
      assert SpaceBetween(s, j, |s|);
      assert forall k | 0 <= k < |trail| :: trail[k] == s[j + k];
    }
  }

  lemma AllSpaceAppend(x: string, y: string)
    requires AllSpace(x) && AllSpace(y)
    ensures AllSpace(x + y)
  {
  }

  lemma {:induction false} NonSpaceCountAppend(x: string, y: string)
    ensures NonSpaceCount(x + y) == NonSpaceCount(x) + NonSpaceCount(y)
  {
    if x == [] {
      assert x + y == y;
    } else {
      assert (x + y)[1..] == x[1..] + y;
      NonSpaceCountAppend(x[1..], y);
    }
  }

  lemma {:induction false} NonSpaceCountOfSpace(s: string)
    requires AllSpace(s)
    ensures NonSpaceCount(s) == 0
  {
    if s != [] {
      NonSpaceCountOfSpace(s[1..]);
    }
  }

  /** In `s[lo..hi]`, whitespace up to `p` and from `q` on, only the
      characters of `[p, q)` can be counted. */
  lemma CountAcrossGap(s: string, lo: nat, p: nat, q: nat, hi: nat)
    requires lo <= p <= q <= hi <= |s|
    requires SpaceBetween(s, lo, p) && SpaceBetween(s, q, hi)
    ensures NonSpaceCount(s[lo..hi]) <= q - p
  {
    assert s[lo..hi] == s[lo..p] + s[p..q] + s[q..hi];
    NonSpaceCountAppend(s[lo..p] + s[p..q], s[q..hi]);
    NonSpaceCountAppend(s[lo..p], s[p..q]);
    assert AllSpace(s[lo..p]) by {
      assert forall k | 0 <= k < p - lo :: s[lo..p][k] == s[lo + k];
    }
    assert AllSpace(s[q..hi]) by {
      assert forall k | 0 <= k < hi - q :: s[q..hi][k] == s[q + k];
    }
    NonSpaceCountOfSpace(s[lo..p]);
    NonSpaceCountOfSpace(s[q..hi]);
  }

  /** A head without edge whitespace survives `strip`. */
  lemma StripKeepsHead(s: string, head: string)
    requires StartsWith(s, head) && head != [] && NoEdgeSpace(head)
    ensures StartsWith(Strip(s), head)
  {
  }

  /** A slice of a slice is a slice. */
  lemma SliceOfSlice(s: string, lo: nat, hi: nat, u: string, a: nat, b: nat)
    requires lo <= hi <= |s| && u == s[lo..hi] && a <= b <= |u|
    ensures u[a..b] == s[lo + a..lo + b]
  {
    forall k | 0 <= k < b - a ensures u[a..b][k] == s[lo + a..lo + b][k] {
      assert u[a..b][k] == s[lo + a + k];
    }
  }
}
