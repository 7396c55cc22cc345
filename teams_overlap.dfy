/** Overlap detection between consecutive Teams snapshots
    (`find_best_overlap_index`): the longest contiguous run of equal parts
    between the end of the transcript so far and the new snapshot decides
    where the new content starts. */
module TeamsOverlap {
  import opened TeamsCaptions

  /** `difflib.Match(a, b, size)`. */
  datatype Match = Match(a: nat, b: nat, size: nat)

  // ------------------------------------------------------------ longest match

  /** `x[i..i + k]` and `y[j..j + k]` exist and are equal. */
  ghost predicate IsBlock(x: seq<Part>, y: seq<Part>, i: int, j: int, k: int) {
    0 <= i && 0 <= j && 0 <= k && i + k <= |x| && j + k <= |y| && x[i..i + k] == y[j..j + k]
  }

  /** What `SequenceMatcher(None, x, y, autojunk=False).find_longest_match(0,
      len(x), 0, len(y))` promises: the longest block; among the longest,
      the one starting earliest in `x`, then earliest in `y`; `(0, 0, 0)`
      when nothing matches. */
  ghost predicate IsLongestMatch(x: seq<Part>, y: seq<Part>, m: Match) {
    IsBlock(x, y, m.a, m.b, m.size)
    && (forall i, j, k :: IsBlock(x, y, i, j, k) ==> k <= m.size)
    && (m.size > 0 ==> forall i, j :: IsBlock(x, y, i, j, m.size) ==> m.a < i || (m.a == i && m.b <= j))
    && (m.size == 0 ==> m.a == 0 && m.b == 0)
  }

  /** The length of the longest run of equal elements from `x[i]`, `y[j]`. */
  function RunLen(x: seq<Part>, y: seq<Part>, i: nat, j: nat): (r: nat)
    requires i <= |x| && j <= |y|
    ensures i + r <= |x| && j + r <= |y|
    decreases |x| - i
  {
    if i < |x| && j < |y| && x[i] == y[j] then 1 + RunLen(x, y, i + 1, j + 1) else 0
  }

  /** The run from `x[i]`, `y[j]` is a block. */
  lemma {:induction false} RunIsBlock(x: seq<Part>, y: seq<Part>, i: nat, j: nat)
    requires i <= |x| && j <= |y|
    ensures IsBlock(x, y, i, j, RunLen(x, y, i, j))
    decreases |x| - i
  {
    if i < |x| && j < |y| && x[i] == y[j] {
      var r := RunLen(x, y, i + 1, j + 1);
      RunIsBlock(x, y, i + 1, j + 1);
      assert x[i..i + 1 + r] == [x[i]] + x[i + 1..i + 1 + r];
      assert y[j..j + 1 + r] == [y[j]] + y[j + 1..j + 1 + r];
    }
  }

  lemma {:induction false} BlockWithinRun(x: seq<Part>, y: seq<Part>, i: nat, j: nat, k: nat)
    requires IsBlock(x, y, i, j, k)
    ensures k <= RunLen(x, y, i, j)
    decreases k
  {
    if k > 0 {
      assert x[i] == x[i..i + k][0] == y[j..j + k][0] == y[j];
      assert x[i + 1..i + k] == x[i..i + k][1..];
      assert y[j + 1..j + k] == y[j..j + k][1..];
      BlockWithinRun(x, y, i + 1, j + 1, k - 1);
    }
  }

  lemma BlockPrefix(x: seq<Part>, y: seq<Part>, i: int, j: int, k: int, n: int)
    requires IsBlock(x, y, i, j, k) && 0 <= n <= k
    ensures IsBlock(x, y, i, j, n)
  {
    assert x[i..i + n] == x[i..i + k][..n];
    assert y[j..j + n] == y[j..j + k][..n];
  }

  predicate PairBefore(i: int, j: int, i2: int, j2: int) {
    i < i2 || (i == i2 && j < j2)
  }

  /** Scan state at pair `(i, j)`: `m` is the earliest longest run among the
      pairs already visited. */
  ghost predicate ScanInv(x: seq<Part>, y: seq<Part>, i: int, j: int, m: Match) {
    (m.size == 0 ==> m.a == 0 && m.b == 0)
    && (m.size > 0 ==> m.a < |x| && m.b < |y| && RunLen(x, y, m.a, m.b) == m.size && PairBefore(m.a, m.b, i, j))
    && (forall p, q :: 0 <= p < |x| && 0 <= q < |y| && PairBefore(p, q, i, j) ==> RunLen(x, y, p, q) <= m.size)
    && (forall p, q :: 0 <= p < |x| && 0 <= q < |y| && PairBefore(p, q, m.a, m.b) ==> RunLen(x, y, p, q) < m.size)
  }

  /** Visits every pair in order, keeping the first strictly longer run. */
  function Scan(x: seq<Part>, y: seq<Part>, i: nat, j: nat, best: Match): (m: Match)
    requires i <= |x| && j <= |y| && ScanInv(x, y, i, j, best)
    ensures ScanInv(x, y, |x|, 0, m)
    decreases |x| - i, |y| - j
  {
    if i == |x| then best
    else if j == |y| then
      ScanNextRow(x, y, i, best);
      Scan(x, y, i + 1, 0, best)
    else
      ScanNextPair(x, y, i, j, best);
      Scan(x, y, i, j + 1, Keep(x, y, i, j, best))
  }

  /** The best run after visiting pair `(i, j)`. */
  function Keep(x: seq<Part>, y: seq<Part>, i: nat, j: nat, best: Match): Match
    requires i < |x| && j < |y|
  {
    var k := RunLen(x, y, i, j);
    if k > best.size then Match(i, j, k) else best
  }

  lemma ScanNextRow(x: seq<Part>, y: seq<Part>, i: nat, best: Match)
    requires i < |x| && ScanInv(x, y, i, |y|, best)
    ensures ScanInv(x, y, i + 1, 0, best)
  {
  }

  lemma ScanNextPair(x: seq<Part>, y: seq<Part>, i: nat, j: nat, best: Match)
    requires i < |x| && j < |y| && ScanInv(x, y, i, j, best)
    ensures ScanInv(x, y, i, j + 1, Keep(x, y, i, j, best))
  {
    var m := Keep(x, y, i, j, best);
    forall p, q | 0 <= p < |x| && 0 <= q < |y| && PairBefore(p, q, i, j + 1)
      ensures RunLen(x, y, p, q) <= m.size
    {
      if !PairBefore(p, q, i, j) {
        assert p == i && q == j;
      }
    }
    if m != best {
      forall p, q | 0 <= p < |x| && 0 <= q < |y| && PairBefore(p, q, i, j)
        ensures RunLen(x, y, p, q) < m.size
      {
      }
    }
  }

  function FindLongestMatch(x: seq<Part>, y: seq<Part>): Match {
    Scan(x, y, 0, 0, Match(0, 0, 0))
  }

  /** The scan finds the match `difflib` promises. */
  lemma FindLongestMatchSpec(x: seq<Part>, y: seq<Part>)
    ensures IsLongestMatch(x, y, FindLongestMatch(x, y))
  {
    ScanFindsLongest(x, y, FindLongestMatch(x, y));
  }

  lemma ScanFindsLongest(x: seq<Part>, y: seq<Part>, m: Match)
    requires ScanInv(x, y, |x|, 0, m)
    ensures IsLongestMatch(x, y, m)
  {
    if m.size > 0 {
      RunIsBlock(x, y, m.a, m.b);
    }
    forall i, j, k | IsBlock(x, y, i, j, k) ensures k <= m.size {
      if k > 0 { BlockWithinRun(x, y, i, j, k); }
    }
    if m.size > 0 {
      forall i, j | IsBlock(x, y, i, j, m.size) ensures m.a < i || (m.a == i && m.b <= j) {
        BlockWithinRun(x, y, i, j, m.size);
      }
    }
  }

  /** There is exactly one longest match in the sense `difflib` promises. */
  lemma LongestMatchUnique(x: seq<Part>, y: seq<Part>, m1: Match, m2: Match)
    requires IsLongestMatch(x, y, m1) && IsLongestMatch(x, y, m2)
    ensures m1 == m2
  {
    assert m1.size == m2.size;
  }

  // ------------------------------------------------------------ overlap index

  /** `previous_parts[max(0, len(previous_parts) - lookback):]`. */
  function LookbackTail(prev: seq<Part>, lookback: int): (t: seq<Part>)
    ensures |t| <= |prev| && t == prev[|prev| - |t|..]
    ensures 0 <= lookback ==> |t| == if lookback < |prev| then lookback else |prev|
  {
    var start := if |prev| - lookback > 0 then |prev| - lookback else 0;
    if start >= |prev| then [] else prev[start..]
  }

  /** `find_best_overlap_index(previous, current, lookback, min_len)`: the
      index in `current` just after the longest run it shares with the last
      `lookback` previous parts, or 0 when that run is shorter than
      `min_len`. */
  function FindBestOverlapIndex(prev: seq<Part>, curr: seq<Part>, lookback: int, minLen: int): (r: nat)
    ensures r <= |curr|
  {
    if prev == [] || curr == [] || minLen <= 0 then 0
    else
      var tail := LookbackTail(prev, lookback);
      if tail == [] then 0
      else
        var m := FindLongestMatch(tail, curr);
        if m.size >= minLen then
          if m.b + m.size < |curr| then m.b + m.size else |curr|
        else 0
  }

  /** The overlap index is positive exactly when some run of at least
      `minLen` parts is shared, and then it is the end in `curr` of the
      longest such run. */
  lemma FindBestOverlapIndexSpec(prev: seq<Part>, curr: seq<Part>, lookback: int, minLen: int)
    ensures var r := FindBestOverlapIndex(prev, curr, lookback, minLen);
      (prev == [] || curr == [] || minLen <= 0 ==> r == 0)
      && (r > 0 <==> minLen > 0 && exists i, j :: IsBlock(LookbackTail(prev, lookback), curr, i, j, minLen))
      && (r > 0 ==> exists m :: (IsLongestMatch(LookbackTail(prev, lookback), curr, m)
            && minLen <= m.size && r == m.b + m.size))
  {
    if prev != [] && curr != [] && minLen > 0 {
      var tail := LookbackTail(prev, lookback);
      if tail != [] {
        var m := FindLongestMatch(tail, curr);
        FindLongestMatchSpec(tail, curr);
        if m.size >= minLen {
          BlockPrefix(tail, curr, m.a, m.b, m.size, minLen);
        }
      }
    }
  }

  /** Only the last `lookback` previous parts are compared: anything before
      them cannot change the result. */
  lemma {:induction false} OlderPartsIrrelevant(older: seq<Part>, prev: seq<Part>, curr: seq<Part>, lookback: int, minLen: int)
    requires lookback <= |prev|
    ensures FindBestOverlapIndex(older + prev, curr, lookback, minLen)
         == FindBestOverlapIndex(prev, curr, lookback, minLen)
  {
    var all := older + prev;
    if 0 < lookback {
      assert LookbackTail(all, lookback) == all[|all| - lookback..] == prev[|prev| - lookback..];
    }
  }
}
