/** The window-shifting detector: the extremes of every window of
    `WindowSize` consecutive bars, computed by the block decomposition (a
    running extreme from the start of each block of `k` indices, and one
    from the end of each block), and a picker that records a window extreme
    once it has been the extreme of `Pivot` windows in a row. */
module WindowShifting {
  import opened SupportResistance
  import Period

  const WindowSize := 9
  /** The quotient of `divmod(WindowSize, 2)`. */
  const Pivot := 4

  /** `max` or `min`, as passed to the window helper. */
  datatype Extremum = Max | Min

  function Pick(e: Extremum, a: int, b: int): int
  {
    match e
    case Max => if a >= b then a else b
    case Min => if a <= b then a else b
  }

  /** `a` is at least as extreme as `b`. */
  predicate Dominates(e: Extremum, a: int, b: int)
  {
    match e
    case Max => a >= b
    case Min => a <= b
  }

  /** The extreme of a non-empty sequence, folded from the left. */
  function Extreme(e: Extremum, s: seq<int>): int
    requires s != []
  {
    if |s| == 1 then s[0] else Pick(e, Extreme(e, s[..|s| - 1]), s[|s| - 1])
  }

  /** The extreme is one of the elements, at least as extreme as all of
      them. */
  lemma {:induction false} ExtremeBounds(e: Extremum, s: seq<int>)
    requires s != []
    ensures Extreme(e, s) in s
    ensures forall x :: x in s ==> Dominates(e, Extreme(e, s), x)
  {
    if |s| > 1 {
      var init, last := s[..|s| - 1], s[|s| - 1];
      assert s == init + [last];
      ExtremeBounds(e, init);
    }
  }

  /** An element at least as extreme as all others is the extreme. */
  lemma ExtremeUnique(e: Extremum, s: seq<int>, v: int)
    requires s != [] && v in s && forall x :: x in s ==> Dominates(e, v, x)
    ensures Extreme(e, s) == v
  {
    var r := Extreme(e, s);
    ExtremeBounds(e, s);
    assert Dominates(e, v, r) && Dominates(e, r, v);
  }

  /** The extreme of two adjoining pieces is the extreme of their extremes,
      taken in either order. */
  lemma ExtremeConcat(e: Extremum, a: seq<int>, b: seq<int>)
    requires a != [] && b != []
    ensures Extreme(e, a + b) == Pick(e, Extreme(e, a), Extreme(e, b)) == Pick(e, Extreme(e, b), Extreme(e, a))
  {
    var ea, eb := Extreme(e, a), Extreme(e, b);
    ExtremeBounds(e, a);
    ExtremeBounds(e, b);
    var v := Pick(e, ea, eb);
    assert v in a + b;
    forall x | x in a + b ensures Dominates(e, v, x) {
      if x in a {
        assert Dominates(e, ea, x);
      } else {
        assert Dominates(e, eb, x);
      }
    }
    ExtremeUnique(e, a + b, v);
  }

  // ---------------------------------------------------------------------------
  // Blocks of k indices
  // ---------------------------------------------------------------------------

  /** The first index of the block of `i`. */
  function BlockStart(i: nat, k: nat): (s: nat)
    requires k > 0
    ensures s % k == 0 && s <= i < s + k
  {
    Period.DivUnique(i, k, i / k, i % k);
    Period.DivUnique(i / k * k, k, i / k, 0);
    i / k * k
  }

  /** One past the last index of the block of `j`, cut at `n`. */
  function BlockEnd(j: nat, k: nat, n: nat): (t: nat)
    requires k > 0 && j < n
    ensures j < t <= n && t <= j + k
  {
    var s := BlockStart(j, k);
    if s + k <= n then s + k else n
  }

  lemma BlockOfMultiple(i: nat, k: nat)
    requires k > 0 && i % k == 0
    ensures BlockStart(i, k) == i
  {
    Period.DivUnique(i, k, i / k, 0);
  }

  lemma BlockContinues(i: nat, k: nat)
    requires k > 0 && i > 0 && i % k != 0
    ensures BlockStart(i - 1, k) == BlockStart(i, k)
  {
    var q, r := i / k, i % k;
    Period.DivUnique(i, k, q, r);
    Period.DivUnique(i - 1, k, q, r - 1);
  }

  lemma BlockOfLast(j: nat, k: nat)
    requires k > 0 && (j + 1) % k == 0
    ensures BlockStart(j, k) + k == j + 1
  {
    var q := (j + 1) / k;
    Period.DivUnique(j + 1, k, q, 0);
    if q == 0 {
      assert false;
    }
    Period.DivUnique(j, k, q - 1, k - 1);
  }

  /** A window of `k` indices from `i` lies in one block when `i` starts a
      block, and otherwise spans the end of `i`'s block and the start of the
      next one, which is the block of the window's last index. */
  lemma WindowBlocks(i: nat, k: nat)
    requires k > 0
    ensures i % k == 0 ==> BlockStart(i, k) == i && BlockStart(i + k - 1, k) == i
    ensures i % k != 0 ==> BlockStart(i + k - 1, k) == BlockStart(i, k) + k && i < BlockStart(i, k) + k < i + k
  {
    var q, r := i / k, i % k;
    Period.DivUnique(i, k, q, r);
    if r == 0 {
      Period.DivUnique(i + k - 1, k, q, k - 1);
    } else {
      Period.DivUnique(i + k - 1, k, q + 1, r - 1);
    }
  }

  // ---------------------------------------------------------------------------
  // _determine_max_or_min_within_window
  // ---------------------------------------------------------------------------

  /** The two running-extreme arrays: `left[i]` covers the start of `i`'s
      block through `i`, `right[j]` covers `j` through the end of `j`'s
      block. */
  method BlockScans(nums: seq<int>, k: nat, e: Extremum) returns (left: seq<int>, right: seq<int>)
    requires k > 0 && nums != []
    ensures |left| == |nums| && |right| == |nums|
    ensures forall i :: 0 <= i < |nums| ==> left[i] == Extreme(e, nums[BlockStart(i, k)..i + 1])
    ensures forall j :: 0 <= j < |nums| ==> right[j] == Extreme(e, nums[j..BlockEnd(j, k, |nums|)])
  {
    var n := |nums|;
    var l := new int[n];
    var r := new int[n];
    l[0], r[n - 1] := nums[0], nums[n - 1];
    ScanStart(nums, k, e, l[..], r[..]);
    for i := 1 to n
      invariant LeftScanned(nums, k, e, l[..], i)
      invariant RightScanned(nums, k, e, r[..], n - i)
    {
      var j := n - i - 1;
      LeftExtend(nums, k, e, l[..], i);
      RightExtend(nums, k, e, r[..], j);
      l[i] := if i % k == 0 then nums[i] else Pick(e, l[i - 1], nums[i]);
      r[j] := if (j + 1) % k == 0 then nums[j] else Pick(e, r[j + 1], nums[j]);
    }
    left, right := l[..], r[..];
  }

  /** The first `i` entries of `ls` are the left scan. */
  ghost predicate LeftScanned(nums: seq<int>, k: nat, e: Extremum, ls: seq<int>, i: nat)
    requires k > 0
  {
    |ls| == |nums| && i <= |nums| &&
    forall p :: 0 <= p < i ==> ls[p] == Extreme(e, nums[BlockStart(p, k)..p + 1])
  }

  /** The entries of `rs` from `j` on are the right scan. */
  ghost predicate RightScanned(nums: seq<int>, k: nat, e: Extremum, rs: seq<int>, j: nat)
    requires k > 0
  {
    |rs| == |nums| && j <= |nums| &&
    forall q :: j <= q < |nums| ==> rs[q] == Extreme(e, nums[q..BlockEnd(q, k, |nums|)])
  }

  lemma ScanStart(nums: seq<int>, k: nat, e: Extremum, ls: seq<int>, rs: seq<int>)
    requires k > 0 && nums != [] && |ls| == |rs| == |nums|
    requires ls[0] == nums[0] && rs[|nums| - 1] == nums[|nums| - 1]
    ensures LeftScanned(nums, k, e, ls, 1) && RightScanned(nums, k, e, rs, |nums| - 1)
  {
    var n := |nums|;
    assert BlockStart(0, k) == 0;
    assert nums[0..1] == [nums[0]];
    assert nums[n - 1..n] == [nums[n - 1]];
  }

  lemma LeftExtend(nums: seq<int>, k: nat, e: Extremum, ls: seq<int>, i: nat)
    requires k > 0 && 0 < i < |nums| && LeftScanned(nums, k, e, ls, i)
    ensures LeftScanned(nums, k, e, ls[i := if i % k == 0 then nums[i] else Pick(e, ls[i - 1], nums[i])], i + 1)
  {
    LeftStep(nums, k, e, i, ls[i - 1]);
  }

  lemma RightExtend(nums: seq<int>, k: nat, e: Extremum, rs: seq<int>, j: nat)
    requires k > 0 && j + 1 < |nums| && RightScanned(nums, k, e, rs, j + 1)
    ensures RightScanned(nums, k, e, rs[j := if (j + 1) % k == 0 then nums[j] else Pick(e, rs[j + 1], nums[j])], j)
  {
    RightStep(nums, k, e, j, rs[j + 1]);
  }

  /** One step of the left scan: a block start restarts it, any other
      index extends the running extreme of its block. */
  lemma LeftStep(nums: seq<int>, k: nat, e: Extremum, i: nat, prev: int)
    requires k > 0 && 0 < i < |nums|
    requires prev == Extreme(e, nums[BlockStart(i - 1, k)..i])
    ensures (if i % k == 0 then nums[i] else Pick(e, prev, nums[i])) == Extreme(e, nums[BlockStart(i, k)..i + 1])
  {
    if i % k == 0 {
      BlockOfMultiple(i, k);
      assert nums[i..i + 1] == [nums[i]];
    } else {
      BlockContinues(i, k);
      var s := BlockStart(i, k);
      assert nums[s..i + 1][..i - s] == nums[s..i];
    }
  }

  /** One step of the right scan: a block end restarts it, any other index
      extends the running extreme to the end of its block. */
  lemma RightStep(nums: seq<int>, k: nat, e: Extremum, j: nat, next: int)
    requires k > 0 && j + 1 < |nums|
    requires next == Extreme(e, nums[j + 1..BlockEnd(j + 1, k, |nums|)])
    ensures (if (j + 1) % k == 0 then nums[j] else Pick(e, next, nums[j])) == Extreme(e, nums[j..BlockEnd(j, k, |nums|)])
  {
    var n := |nums|;
    if (j + 1) % k == 0 {
      BlockOfLast(j, k);
      assert nums[j..j + 1] == [nums[j]];
    } else {
      BlockContinues(j + 1, k);
      var t := BlockEnd(j + 1, k, n);
      assert BlockEnd(j, k, n) == t;
      assert nums[j..t] == [nums[j]] + nums[j + 1..t];
      ExtremeConcat(e, [nums[j]], nums[j + 1..t]);
    }
  }

  /** The extremes of the windows of `k` consecutive numbers, one per start
      index; none when the input is empty, `k` is zero or the input is
      shorter than one window. */
  method WindowExtremes(nums: seq<int>, k: nat, e: Extremum) returns (r: seq<int>)
    ensures |r| == (if |nums| * k == 0 || |nums| < k then 0 else |nums| - k + 1)
    ensures forall i :: 0 <= i < |r| ==> i + k <= |nums| && r[i] == Extreme(e, nums[i..i + k])
  {
    var n := |nums|;
    if n * k == 0 {
      return [];
    }
    var left, right := BlockScans(nums, k, e);
    var count := if n - k + 1 > 0 then n - k + 1 else 0;
    r := seq(count, i requires 0 <= i < count => Pick(e, left[i + k - 1], right[i]));
    forall i | 0 <= i < count ensures r[i] == Extreme(e, nums[i..i + k]) {
      WindowSplit(nums, k, e, i, left[i + k - 1], right[i]);
    }
  }

  /** The extreme of a window is the extreme of the two block scans that
      meet inside it. */
  lemma WindowSplit(nums: seq<int>, k: nat, e: Extremum, i: nat, l: int, r: int)
    requires k > 0 && i + k <= |nums|
    requires l == Extreme(e, nums[BlockStart(i + k - 1, k)..i + k])
    requires r == Extreme(e, nums[i..BlockEnd(i, k, |nums|)])
    ensures Pick(e, l, r) == Extreme(e, nums[i..i + k])
  {
    WindowBlocks(i, k);
    var w := nums[i..i + k];
    if i % k == 0 {
      assert BlockEnd(i, k, |nums|) == i + k;
      assert l == Extreme(e, w) && r == Extreme(e, w);
    } else {
      var b := BlockStart(i, k) + k;
      assert BlockEnd(i, k, |nums|) == b;
      assert w == nums[i..b] + nums[b..i + k];
      ExtremeConcat(e, nums[i..b], nums[b..i + k]);
    }
  }

  /** The reference the block algorithm is measured against: the extreme of
      each window, taken directly. */
  function Windows(nums: seq<int>, k: nat, e: Extremum): seq<int>
  {
    if |nums| * k == 0 || |nums| < k then []
    else seq(|nums| - k + 1, i requires 0 <= i < |nums| - k + 1 => Extreme(e, nums[i..i + k]))
  }

  // ---------------------------------------------------------------------------
  // _set_levels
  // ---------------------------------------------------------------------------

  /** How many values in a row, ending at `i`, equal `vals[i]`. */
  function RunLength(vals: seq<int>, i: nat): (r: nat)
    requires i < |vals|
    ensures 1 <= r <= i + 1
  {
    if i == 0 || vals[i - 1] != vals[i] then 1 else RunLength(vals, i - 1) + 1
  }

  /** The run ending at `i` is maximal: its values all equal `vals[i]`, and
      the value before it, if any, differs. */
  lemma {:induction false} RunIsMaximal(vals: seq<int>, i: nat)
    requires i < |vals|
    ensures var r := RunLength(vals, i);
      (forall j :: i - r < j <= i ==> vals[j] == vals[i]) && (r <= i ==> vals[i - r] != vals[i])
  {
    if i > 0 && vals[i - 1] == vals[i] {
      RunIsMaximal(vals, i - 1);
    }
  }

  /** Along a run of equal values the run length grows by one per index, so
      only one index of a run has any given run length: a window extreme is
      offered at most once per run. */
  lemma {:induction false} RunGrows(vals: seq<int>, i: nat, j: nat)
    requires i <= j < |vals| && forall t :: i <= t <= j ==> vals[t] == vals[i]
    ensures RunLength(vals, j) == RunLength(vals, i) + (j - i)
  {
    if j > i {
      RunGrows(vals, i, j - 1);
    }
  }

  /** `n` copies of `v`: the contents of a run list. */
  function Repeat(v: int, n: nat): (s: seq<int>)
    ensures |s| == n && forall x :: x in s ==> x == v
  {
    seq(n, _ => v)
  }

  /** One offer of the picker: `vals[t]` is recorded when it completes a
      run of `Pivot` equal values and is far from every level so far. */
  function Offer(vals: seq<int>, t: nat, mean: real, levels: seq<int>): seq<int>
    requires t < |vals|
  {
    if RunLength(vals, t) == Pivot && IsFarFromLevel(mean, vals[t], levels) then levels + [vals[t]] else levels
  }

  /** The levels after `m` steps of the picker over the window highs and
      window lows, starting from `start`: each step offers the high, then
      the low. */
  function Picked(highs: seq<int>, lows: seq<int>, mean: real, start: seq<int>, m: nat): seq<int>
    requires m <= |highs| && m <= |lows|
  {
    if m == 0 then start
    else Offer(lows, m - 1, mean, Offer(highs, m - 1, mean, Picked(highs, lows, mean, start, m - 1)))
  }

  /** The window extremes that complete a run of `Pivot` equal values within
      the first `m` steps. */
  ghost function PivotValues(highs: seq<int>, lows: seq<int>, m: nat): set<int>
    requires m <= |highs| && m <= |lows|
  {
    if m == 0 then {}
    else
      PivotValues(highs, lows, m - 1)
      + (if RunLength(highs, m - 1) == Pivot then {highs[m - 1]} else {})
      + (if RunLength(lows, m - 1) == Pivot then {lows[m - 1]} else {})
  }

  lemma PickedStep(highs: seq<int>, lows: seq<int>, mean: real, start: seq<int>, m: nat)
    requires m < |highs| && m < |lows|
    ensures Picked(highs, lows, mean, start, m + 1) == Offer(lows, m, mean, Offer(highs, m, mean, Picked(highs, lows, mean, start, m)))
  {
  }

  /** Value `v` is the window high or the window low at step `t`, and
      completes a run of `Pivot` there. */
  ghost predicate PivotRun(highs: seq<int>, lows: seq<int>, t: nat, v: int)
    requires t < |highs| && t < |lows|
  {
    (v == highs[t] && RunLength(highs, t) == Pivot) || (v == lows[t] && RunLength(lows, t) == Pivot)
  }

  lemma {:induction false} PivotValuesRuns(highs: seq<int>, lows: seq<int>, m: nat, v: int)
    requires m <= |highs| && m <= |lows|
    ensures v in PivotValues(highs, lows, m) <==> exists t :: 0 <= t < m && PivotRun(highs, lows, t, v)
  {
    if m > 0 {
      PivotValuesRuns(highs, lows, m - 1, v);
      if PivotRun(highs, lows, m - 1, v) {
        assert v in PivotValues(highs, lows, m);
      }
    }
  }

  /** The picker only appends, and only window extremes that complete a run
      of `Pivot`. */
  lemma {:induction false} PickedAppendsPivots(highs: seq<int>, lows: seq<int>, mean: real, start: seq<int>, m: nat)
    requires m <= |highs| && m <= |lows|
    ensures var r := Picked(highs, lows, mean, start, m);
      |start| <= |r| && r[..|start|] == start &&
      forall p :: |start| <= p < |r| ==> r[p] in PivotValues(highs, lows, m)
  {
    if m > 0 {
      PickedAppendsPivots(highs, lows, mean, start, m - 1);
    }
  }

  /** Every level the picker appends completes a run of `Pivot` equal
      window extremes at some step. */
  lemma PickedProvenance(highs: seq<int>, lows: seq<int>, mean: real, start: seq<int>, m: nat, p: nat)
    requires m <= |highs| && m <= |lows|
    requires |start| <= p < |Picked(highs, lows, mean, start, m)|
    ensures exists t :: 0 <= t < m && PivotRun(highs, lows, t, Picked(highs, lows, mean, start, m)[p])
  {
    PickedAppendsPivots(highs, lows, mean, start, m);
    PivotValuesRuns(highs, lows, m, Picked(highs, lows, mean, start, m)[p]);
  }

  /** The picker keeps a separated list separated. */
  lemma {:induction false} PickedSeparated(highs: seq<int>, lows: seq<int>, mean: real, start: seq<int>, m: nat)
    requires m <= |highs| && m <= |lows| && Separated(start, mean)
    ensures Separated(Picked(highs, lows, mean, start, m), mean)
  {
    if m > 0 {
      PickedSeparated(highs, lows, mean, start, m - 1);
      var prev := Picked(highs, lows, mean, start, m - 1);
      var withHigh := Offer(highs, m - 1, mean, prev);
      if withHigh != prev {
        SeparatedAppend(prev, mean, highs[m - 1]);
      }
      if Offer(lows, m - 1, mean, withHigh) != withHigh {
        SeparatedAppend(withHigh, mean, lows[m - 1]);
      }
    }
  }

  /** `run` is what the run list holds after the first `t` values: copies
      of the last value, one per value of the run ending there. */
  ghost predicate RunList(vals: seq<int>, t: nat, run: seq<int>)
    requires t <= |vals|
  {
    if t == 0 then run == [] else run == Repeat(vals[t - 1], RunLength(vals, t - 1))
  }

  /** Taking `vals[t]`: the run list is cleared unless it holds that value,
      then extended by it. */
  lemma RunStep(vals: seq<int>, t: nat, run: seq<int>)
    requires t < |vals| && RunList(vals, t, run)
    ensures RunList(vals, t + 1, (if vals[t] !in run then [] else run) + [vals[t]])
    ensures |(if vals[t] !in run then [] else run) + [vals[t]]| == RunLength(vals, t)
  {
    if t > 0 {
      assert run[0] == vals[t - 1];
    }
  }

  /** The block algorithm's output is the reference windows. */
  lemma WindowsMatch(nums: seq<int>, k: nat, e: Extremum, r: seq<int>)
    requires |r| == (if |nums| * k == 0 || |nums| < k then 0 else |nums| - k + 1)
    requires forall i :: 0 <= i < |r| ==> i + k <= |nums| && r[i] == Extreme(e, nums[i..i + k])
    ensures r == Windows(nums, k, e)
  {
  }

  /** Records into `store` every window extreme that completes a run of
      `Pivot` equal window extremes and is far from every level recorded so
      far. */
  method SetLevels(store: LevelStore, frame: seq<Bar>, mean: real)
    modifies store
    ensures var highs, lows := Windows(Highs(frame), WindowSize, Max), Windows(Lows(frame), WindowSize, Min);
      |highs| == |lows| && store.levels == Picked(highs, lows, mean, old(store.levels), |highs|)
  {
    var highRange := WindowExtremes(Highs(frame), WindowSize, Max);
    var lowRange := WindowExtremes(Lows(frame), WindowSize, Min);
    WindowsMatch(Highs(frame), WindowSize, Max, highRange);
    WindowsMatch(Lows(frame), WindowSize, Min, lowRange);
    PickLevels(store, highRange, lowRange, |frame|, mean);
  }

  /** The loop of `SetLevels` over the window extremes of a frame of `n`
      bars. The window index `i - Pivot` stays inside the window arrays
      because a window is `2 * Pivot + 1` bars wide. */
  method PickLevels(store: LevelStore, highRange: seq<int>, lowRange: seq<int>, n: nat, mean: real)
    requires |highRange| == |lowRange| == if n >= WindowSize then n - 2 * Pivot else 0
    modifies store
    ensures store.levels == Picked(highRange, lowRange, mean, old(store.levels), |highRange|)
  {
    ghost var start := store.levels;
    var maxList: seq<int> := [];
    var minList: seq<int> := [];
    var i := Pivot;
    while i < n - Pivot
      invariant Pivot <= i && (i <= n - Pivot || i == Pivot)
      invariant RunList(highRange, i - Pivot, maxList) && RunList(lowRange, i - Pivot, minList)
      invariant store.levels == Picked(highRange, lowRange, mean, start, i - Pivot)
    {
      var t := i - Pivot;
      ghost var before := store.levels;
      var currentMax := highRange[t];
      RunStep(highRange, t, maxList);
      // a value outside the run starts a new run
      maxList := (if currentMax !in maxList then [] else maxList) + [currentMax];
      if |maxList| == Pivot && IsFarFromLevel(mean, currentMax, store.levels) {
        store.levels := store.levels + [currentMax];
      }
      ghost var middle := store.levels;
      assert middle == Offer(highRange, t, mean, before);

      var currentMin := lowRange[t];
      RunStep(lowRange, t, minList);
      minList := (if currentMin !in minList then [] else minList) + [currentMin];
      if |minList| == Pivot && IsFarFromLevel(mean, currentMin, store.levels) {
        store.levels := store.levels + [currentMin];
      }
      assert store.levels == Offer(lowRange, t, mean, middle);
      PickedStep(highRange, lowRange, mean, start, t);
      assert store.levels == Picked(highRange, lowRange, mean, start, t + 1);
      i := i + 1;
    }
  }
}
