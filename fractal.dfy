/** The `Fractal` detector: the five-bar pivot scan of `Plot`, run by the
    constructor, appending to the level list the detector was handed. In
    the source that list is the class attribute of the abstract base, so
    every instance is handed the same one; a list that already holds levels
    is returned as it is, without scanning the instance's own frame. */
module Fractal {
  import opened SupportResistance
  import opened Plot
  import E = Enumerations

  class Fractal {
    const frame: seq<Bar>
    const mean: real
    const store: LevelStore

    /** Builds a detector over `frame` that records into the shared `store`
        and runs the detection at once. */
    constructor(frame: seq<Bar>, mean: real, store: LevelStore)
      modifies store
      ensures this.frame == frame && this.mean == mean && this.store == store
      ensures old(store.levels) == [] ==> store.levels == Detect(frame, mean, [])
      ensures old(store.levels) != [] ==> store.levels == old(store.levels)
    {
      this.frame := frame;
      this.mean := mean;
      this.store := store;
      new;
      var _ := DetectLevels();
    }

    /** Builds a detector with a list of its own, so that what it reports is
        the detection over its own frame whatever other detectors exist. */
    constructor WithOwnLevels(frame: seq<Bar>, mean: real)
      ensures this.frame == frame && this.mean == mean && fresh(store)
      ensures store.levels == Detect(frame, mean, [])
      ensures Separated(store.levels, mean)
    {
      this.frame := frame;
      this.mean := mean;
      this.store := new LevelStore();
      new;
      var _ := DetectLevels();
      ScanSeparated(frame, mean, [], End(frame));
    }

    /** A non-empty list is returned as it is; an empty one is filled by
        scanning this detector's frame. */
    method DetectLevels() returns (levels: seq<int>)
      modifies store
      ensures old(store.levels) != [] ==> store.levels == old(store.levels)
      ensures old(store.levels) == [] ==> store.levels == Detect(frame, mean, [])
      ensures levels == store.levels
    {
      if store.levels != [] {
        return store.levels;
      }
      var i := 2;
      while i < End(frame)
        invariant 2 <= i <= End(frame)
        invariant store.levels == Scan(frame, mean, [], i)
      {
        var level: E.Option<int> := E.None;
        if IsSupport(frame, i) {
          level := E.Some(frame[i].low);
        }
        if IsResistance(frame, i) {
          level := E.Some(frame[i].high);
        }
        assert level == Candidate(frame, i);
        if level.Some? && IsFarFromLevel(mean, level.value, store.levels) {
          store.levels := store.levels + [level.value];
        }
        i := i + 1;
      }
      levels := store.levels;
    }
  }

  /** A frame with one support, of low 1, at index 2. */
  function VFrame(): seq<Bar>
  {
    [Bar(10, 5), Bar(9, 4), Bar(8, 1), Bar(9, 4), Bar(10, 5)]
  }

  /** A frame of five identical bars: no pivots. */
  function FlatFrame(): seq<Bar>
  {
    [Bar(3, 3), Bar(3, 3), Bar(3, 3), Bar(3, 3), Bar(3, 3)]
  }

  lemma FrameLevels()
    ensures Detect(VFrame(), 1.0, []) == [1]
    ensures Detect(FlatFrame(), 1.0, []) == []
  {
    assert IsSupport(VFrame(), 2) && !IsResistance(VFrame(), 2);
    assert !IsSupport(FlatFrame(), 2) && !IsResistance(FlatFrame(), 2);
  }

  /** Two detectors sharing one list: the second, over a frame without a
      single pivot, reports the level found in the first one's frame. */
  method SharedLevelsLeak() returns (first: seq<int>, second: seq<int>)
    ensures first == Detect(VFrame(), 1.0, []) == [1]
    ensures second == first && Detect(FlatFrame(), 1.0, []) == []
  {
    FrameLevels();
    var shared := new LevelStore();
    var a := new Fractal(VFrame(), 1.0, shared);
    first := a.store.levels;
    var b := new Fractal(FlatFrame(), 1.0, shared);
    second := b.store.levels;
  }

  /** With a list per detector the second detector reports its own frame's
      levels. */
  method OwnLevelsDoNotLeak() returns (first: seq<int>, second: seq<int>)
    ensures first == [1] && second == []
  {
    FrameLevels();
    var a := new Fractal.WithOwnLevels(VFrame(), 1.0);
    var b := new Fractal.WithOwnLevels(FlatFrame(), 1.0);
    first := a.store.levels;
    second := b.store.levels;
  }
}
