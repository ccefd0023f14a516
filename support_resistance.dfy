/** What the support/resistance detectors share: the bars they scan, the
    minimum-separation test a candidate level must pass, and the list the
    levels are recorded in. In the source that list is a class attribute of
    the abstract base, so every detector instance appends to one list; the
    model makes that list an object of its own, `LevelStore`, which
    instances are handed rather than own. */
module SupportResistance {

  /** The two columns of a chart row the detectors read. Prices are whole
      yen, so the `int(...)` conversion of a level is the identity. */
  datatype Bar = Bar(high: int, low: int)

  function Highs(frame: seq<Bar>): (r: seq<int>)
    ensures |r| == |frame| && forall i :: 0 <= i < |frame| ==> r[i] == frame[i].high
  {
    seq(|frame|, i requires 0 <= i < |frame| => frame[i].high)
  }

  function Lows(frame: seq<Bar>): (r: seq<int>)
    ensures |r| == |frame| && forall i :: 0 <= i < |frame| ==> r[i] == frame[i].low
  {
    seq(|frame|, i requires 0 <= i < |frame| => frame[i].low)
  }

  /** `abs(a - b)`. */
  function Distance(a: int, b: int): nat
  {
    if a >= b then a - b else b - a
  }

  /** How many recorded levels lie strictly closer than `mean` to `level`:
      the sum of the boolean list the source builds. */
  function NearCount(mean: real, level: int, levels: seq<int>): (c: nat)
    ensures c <= |levels|
    ensures c == 0 <==> forall i :: 0 <= i < |levels| ==> Distance(level, levels[i]) as real >= mean
  {
    if levels == [] then 0
    else
      var last := levels[|levels| - 1];
      NearCount(mean, level, levels[..|levels| - 1]) + (if (Distance(level, last) as real) < mean then 1 else 0)
  }

  /** A candidate level is kept only when no recorded level lies strictly
      within `mean` of it. */
  function IsFarFromLevel(mean: real, level: int, levels: seq<int>): (r: bool)
    ensures r <==> forall i :: 0 <= i < |levels| ==> Distance(level, levels[i]) as real >= mean
    ensures r && mean > 0.0 ==> level !in levels
  {
    NearCount(mean, level, levels) == 0
  }

  /** Every two recorded levels are at least `mean` apart. */
  ghost predicate Separated(levels: seq<int>, mean: real)
  {
    forall i, j :: 0 <= i < j < |levels| ==> Distance(levels[i], levels[j]) as real >= mean
  }

  /** Recording a level that passes the separation test keeps the list
      separated. */
  lemma SeparatedAppend(levels: seq<int>, mean: real, level: int)
    requires Separated(levels, mean) && IsFarFromLevel(mean, level, levels)
    ensures Separated(levels + [level], mean)
  {
    var s := levels + [level];
    forall i, j | 0 <= i < j < |s| ensures Distance(s[i], s[j]) as real >= mean {
      if j == |levels| {
        assert Distance(s[i], s[j]) == Distance(level, levels[i]);
      }
    }
  }

  /** The list of levels found so far. One store handed to several
      detectors plays the part of the class-level list they all share. */
  class LevelStore {
    var levels: seq<int>

    constructor()
      ensures levels == []
    {
      levels := [];
    }
  }
}
