/** Five-bar pivot detection (`plot.py`): a bar whose low is the bottom of a
    strict V over the two bars either side is a support, one whose high is
    the top of a strict inverted V is a resistance, and the scan keeps each
    pivot that is at least `mean` from every level kept before it. */
module Plot {
  import opened SupportResistance
  import E = Enumerations

  // ---------------------------------------------------------------------------
  // The pivot predicates
  // ---------------------------------------------------------------------------

  /** Lows fall strictly into bar `i` and rise strictly out of it. */
  predicate IsSupport(frame: seq<Bar>, i: int)
    requires 2 <= i < |frame| - 2
  {
    frame[i].low < frame[i - 1].low < frame[i - 2].low &&
    frame[i].low < frame[i + 1].low < frame[i + 2].low
  }

  /** Highs rise strictly into bar `i` and fall strictly out of it. */
  predicate IsResistance(frame: seq<Bar>, i: int)
    requires 2 <= i < |frame| - 2
  {
    frame[i].high > frame[i - 1].high > frame[i - 2].high &&
    frame[i].high > frame[i + 1].high > frame[i + 2].high
  }

  /** A support's low is the strict minimum of the lows of its five-bar
      window, and the lows are monotone on each side of it. */
  lemma SupportIsStrictMinimum(frame: seq<Bar>, i: int)
    requires 2 <= i < |frame| - 2
    ensures IsSupport(frame, i) <==>
      (forall j :: i - 2 <= j <= i + 2 && j != i ==> frame[i].low < frame[j].low) &&
      frame[i - 1].low < frame[i - 2].low && frame[i + 1].low < frame[i + 2].low
  {
  }

  /** Turning every bar upside down (negating prices, so the low becomes the
      high) turns resistances into supports and back. */
  function Flip(frame: seq<Bar>): (r: seq<Bar>)
    ensures |r| == |frame|
    ensures forall i :: 0 <= i < |frame| ==> r[i].high == -frame[i].low && r[i].low == -frame[i].high
  {
    seq(|frame|, i requires 0 <= i < |frame| => Bar(-frame[i].low, -frame[i].high))
  }

  lemma ResistanceMirrorsSupport(frame: seq<Bar>, i: int)
    requires 2 <= i < |frame| - 2
    ensures IsResistance(frame, i) <==> IsSupport(Flip(frame), i)
    ensures IsSupport(frame, i) <==> IsResistance(Flip(frame), i)
  {
  }

  /** The level bar `i` proposes: its high when it is a resistance, whether
      or not it is also a support; otherwise its low when it is a support. */
  function Candidate(frame: seq<Bar>, i: int): (r: E.Option<int>)
    requires 2 <= i < |frame| - 2
    ensures IsResistance(frame, i) ==> r == E.Some(frame[i].high)
    ensures !IsResistance(frame, i) && IsSupport(frame, i) ==> r == E.Some(frame[i].low)
    ensures r.None? <==> !IsSupport(frame, i) && !IsResistance(frame, i)
  {
    var level := if IsSupport(frame, i) then E.Some(frame[i].low) else E.None;
    if IsResistance(frame, i) then E.Some(frame[i].high) else level
  }

  // ---------------------------------------------------------------------------
  // The scan
  // ---------------------------------------------------------------------------

  /** One past the last scanned index: indices `2 .. |frame| - 3` are
      scanned, none when the frame has fewer than five bars. */
  function End(frame: seq<Bar>): (e: nat)
    ensures e >= 2 && (e == 2 || e == |frame| - 2)
    ensures e > 2 <==> |frame| >= 5
  {
    if |frame| >= 4 then |frame| - 2 else 2
  }

  /** The levels after scanning indices `2 .. i - 1`, starting from the list
      `start`. */
  function Scan(frame: seq<Bar>, mean: real, start: seq<int>, i: nat): seq<int>
    requires 2 <= i <= End(frame)
  {
    if i == 2 then start
    else
      var prev := Scan(frame, mean, start, i - 1);
      match Candidate(frame, i - 1)
      case Some(level) => if IsFarFromLevel(mean, level, prev) then prev + [level] else prev
      case None => prev
  }

  /** The levels the whole frame yields after `start`. */
  function Detect(frame: seq<Bar>, mean: real, start: seq<int>): seq<int>
  {
    Scan(frame, mean, start, End(frame))
  }

  /** The indices whose levels the scan keeps, in scan order. */
  ghost function Picks(frame: seq<Bar>, mean: real, start: seq<int>, i: nat): seq<nat>
    requires 2 <= i <= End(frame)
  {
    if i == 2 then []
    else
      var prev := Scan(frame, mean, start, i - 1);
      match Candidate(frame, i - 1)
      case Some(level) => if IsFarFromLevel(mean, level, prev) then Picks(frame, mean, start, i - 1) + [i - 1] else Picks(frame, mean, start, i - 1)
      case None => Picks(frame, mean, start, i - 1)
  }

  /** The scan only appends, and what it appends are the levels of pivots,
      in increasing index order. */
  lemma {:induction false} ScanOrder(frame: seq<Bar>, mean: real, start: seq<int>, i: nat)
    requires 2 <= i <= End(frame)
    ensures var r, p := Scan(frame, mean, start, i), Picks(frame, mean, start, i);
      |r| == |start| + |p| && r[..|start|] == start &&
      (forall k :: 0 <= k < |p| ==> 2 <= p[k] < i && Candidate(frame, p[k]) == E.Some(r[|start| + k])) &&
      (forall k, l :: 0 <= k < l < |p| ==> p[k] < p[l])
  {
    if i > 2 {
      ScanOrder(frame, mean, start, i - 1);
    }
  }

  /** Every level the scan keeps is at least `mean` from every other one. */
  lemma {:induction false} ScanSeparated(frame: seq<Bar>, mean: real, start: seq<int>, i: nat)
    requires 2 <= i <= End(frame) && Separated(start, mean)
    ensures Separated(Scan(frame, mean, start, i), mean)
  {
    if i > 2 {
      var prev := Scan(frame, mean, start, i - 1);
      ScanSeparated(frame, mean, start, i - 1);
      match Candidate(frame, i - 1)
      case Some(level) =>
        if IsFarFromLevel(mean, level, prev) {
          SeparatedAppend(prev, mean, level);
        }
      case None =>
    }
  }

  /** No pivot is lost without a reason: the level of every scanned pivot
      was kept, or lies strictly within `mean` of a kept level. */
  lemma {:induction false} ScanCovers(frame: seq<Bar>, mean: real, start: seq<int>, i: nat, j: nat)
    requires 2 <= j < i <= End(frame) && Candidate(frame, j).Some?
    ensures var r, level := Scan(frame, mean, start, i), Candidate(frame, j).value;
      level in r || exists x :: x in r && (Distance(level, x) as real) < mean
  {
    var level := Candidate(frame, j).value;
    var prev := Scan(frame, mean, start, i - 1);
    var r := Scan(frame, mean, start, i);
    assert r == prev || r == prev + [Candidate(frame, i - 1).value];
    if j == i - 1 {
      if !IsFarFromLevel(mean, level, prev) {
        var k :| 0 <= k < |prev| && (Distance(level, prev[k]) as real) < mean;
        assert prev[k] in r;
      }
    } else {
      ScanCovers(frame, mean, start, i - 1, j);
      if level !in prev {
        var x :| x in prev && (Distance(level, x) as real) < mean;
        assert x in r;
      }
    }
  }

  // ---------------------------------------------------------------------------
  // detect_levels
  // ---------------------------------------------------------------------------

  /** Scans the frame into a fresh list. The result depends on the frame and
      `mean` alone, so repeated calls agree. */
  method DetectLevels(frame: seq<Bar>, mean: real) returns (levels: seq<int>)
    ensures levels == Detect(frame, mean, [])
    ensures Separated(levels, mean)
    ensures |frame| < 5 ==> levels == []
  {
    levels := [];
    var i := 2;
    while i < End(frame)
      invariant 2 <= i <= End(frame)
      invariant levels == Scan(frame, mean, [], i)
    {
      var level: E.Option<int> := E.None;
      if IsSupport(frame, i) {
        level := E.Some(frame[i].low);
      }
      if IsResistance(frame, i) {
        level := E.Some(frame[i].high);
      }
      assert level == Candidate(frame, i);
      if level.Some? && IsFarFromLevel(mean, level.value, levels) {
        levels := levels + [level.value];
      }
      i := i + 1;
    }
    ScanSeparated(frame, mean, [], End(frame));
  }
}
