/** The candlestick aggregator: `summarize` folds a map of bars into a map of
    coarser bars, one per bucket that `determine_period` assigns, and the loop
    of `query_tickers` turns raw tickers into the one-tick bars that seed it. */
module Aggregation {
  import opened Period

  /** One bar: the dict `{'high', 'low', 'open', 'close', 'volume',
      'open_ts', 'close_ts'}`; the two timestamps are epoch seconds. */
  datatype Stick = Stick(high: int, low: int, open: int, close: int, volume: int, openTs: int, closeTs: int)

  /** A `STICK_OF` dict. Python dicts remember insertion order, so the model
      keeps the keys in that order next to the key-to-bar map. */
  datatype StickMap = StickMap(keys: seq<Stamp>, sticks: map<Stamp, Stick>)
  {
    ghost predicate Valid()
    {
      && (forall i, j :: 0 <= i < j < |keys| ==> keys[i] != keys[j])
      && (forall k :: k in sticks <==> k in keys)
    }
  }

  const Empty: StickMap := StickMap([], map[])

  /** One `(ts, stick)` pair of `stick_of.items()`. */
  datatype Entry = Entry(key: Stamp, stick: Stick)

  /** `stick_of.items()`, in insertion order. */
  function Items(m: StickMap): seq<Entry>
    requires m.Valid()
  {
    seq(|m.keys|, i requires 0 <= i < |m.keys| => Entry(m.keys[i], m.sticks[m.keys[i]]))
  }

  function Max(a: int, b: int): int { if b > a then b else a }
  function Min(a: int, b: int): int { if b < a then b else a }

  // ---------------------------------------------------------------------------
  // The merge rule and the fold
  // ---------------------------------------------------------------------------

  /** Folds `stick` into the bar already held for its bucket: volumes add,
      high and low widen, an earlier open and a later close take over; on
      equal timestamps the bar already held keeps its open and close. */
  function Merge(bar: Stick, stick: Stick): Stick
  {
    var earlier := bar.openTs > stick.openTs;
    var later := bar.closeTs < stick.closeTs;
    Stick(
      high := Max(bar.high, stick.high),
      low := Min(bar.low, stick.low),
      open := if earlier then stick.open else bar.open,
      close := if later then stick.close else bar.close,
      volume := bar.volume + stick.volume,
      openTs := if earlier then stick.openTs else bar.openTs,
      closeTs := if later then stick.closeTs else bar.closeTs)
  }

  /** One iteration of the loop of `summarize`: a bucket seen for the first
      time gets a copy of the stick, appended at the end of the dict; a bucket
      already present merges the stick into its bar in place. */
  function Insert(m: StickMap, period: Stamp, stick: Stick): StickMap
  {
    if period !in m.sticks then StickMap(m.keys + [period], m.sticks[period := stick])
    else StickMap(m.keys, m.sticks[period := Merge(m.sticks[period], stick)])
  }

  /** What `summarize` returns for the items `es`: the fold of `Insert` over
      them, or the error that `determine_period` raises on the first item it
      rejects. */
  function Aggregate(es: seq<Entry>, duration: int): (r: Result<StickMap>)
    ensures r.Ok? ==> r.value.Valid()
  {
    if es == [] then Ok(Empty)
    else
      match Aggregate(es[..|es| - 1], duration)
      case Err(e) => Err(e)
      case Ok(acc) =>
        match DeterminePeriod(es[|es| - 1].key, duration)
        case Err(e) => Err(e)
        case Ok(period) => Ok(Insert(acc, period, es[|es| - 1].stick))
  }

  /** `summarize(stick_of, duration)`. */
  method Summarize(stickOf: StickMap, duration: int) returns (r: Result<StickMap>)
    requires stickOf.Valid()
    ensures r == Aggregate(Items(stickOf), duration)
    ensures stickOf.keys == [] ==> r == Ok(Empty)
  {
    ghost var items := Items(stickOf);
    var keys: seq<Stamp> := [];
    var newStickOf: map<Stamp, Stick> := map[];
    for i := 0 to |stickOf.keys|
      invariant Aggregate(items[..i], duration) == Ok(StickMap(keys, newStickOf))
    {
      var ts := stickOf.keys[i];
      var stick := stickOf.sticks[ts];
      var period := DeterminePeriod(ts, duration);
      ghost var acc := StickMap(keys, newStickOf);
      AggregateStep(items, i, duration, acc);
      if period.Err? {
        ErrorPersists(items, i + 1, duration);
        return Err(period.error);
      }
      var p := period.value;
      if p !in newStickOf {
        newStickOf := newStickOf[p := stick];
        keys := keys + [p];
      } else {
        var held := newStickOf[p];
        var bar := held;
        bar := bar.(volume := bar.volume + stick.volume);
        bar := bar.(high := Max(bar.high, stick.high));
        bar := bar.(low := Min(bar.low, stick.low));
        if bar.openTs > stick.openTs {
          bar := bar.(openTs := stick.openTs, open := stick.open);
        }
        if bar.closeTs < stick.closeTs {
          bar := bar.(closeTs := stick.closeTs, close := stick.close);
        }
        assert bar == Merge(held, stick);
        newStickOf := newStickOf[p := bar];
      }
      assert StickMap(keys, newStickOf) == Insert(acc, p, stick);
    }
    assert items[..|stickOf.keys|] == items;
    r := Ok(StickMap(keys, newStickOf));
  }

  /** One more item: the pass over `es[..n + 1]` is the pass over `es[..n]`
      followed by one `Insert`, or the error on `es[n]`. */
  lemma AggregateStep(es: seq<Entry>, n: nat, duration: int, acc: StickMap)
    requires n < |es| && Aggregate(es[..n], duration) == Ok(acc)
    ensures DeterminePeriod(es[n].key, duration).Err? ==>
      Aggregate(es[..n + 1], duration) == Err(DeterminePeriod(es[n].key, duration).error)
    ensures DeterminePeriod(es[n].key, duration).Ok? ==>
      Aggregate(es[..n + 1], duration) == Ok(Insert(acc, DeterminePeriod(es[n].key, duration).value, es[n].stick))
  {
    assert es[..n + 1][..n] == es[..n];
  }

  /** An error raised on some item ends the whole pass with that error. */
  lemma {:induction false} ErrorPersists(es: seq<Entry>, n: nat, duration: int)
    requires n <= |es| && Aggregate(es[..n], duration).Err?
    ensures Aggregate(es, duration) == Aggregate(es[..n], duration)
    decreases |es| - n
  {
    if n < |es| {
      var e := Aggregate(es[..n], duration).error;
      assert es[..n + 1][..n] == es[..n];
      ErrorPersists(es, n + 1, duration);
    } else {
      assert es[..n] == es;
    }
  }

  // ---------------------------------------------------------------------------
  // What the pass computes
  // ---------------------------------------------------------------------------

  /** The pass fails exactly when some item's timestamp is rejected, and
      then with the error of the first such item; on a supported duration it
      never fails; an empty dict never fails, whatever the duration. */
  lemma {:induction false} AggregateErrors(es: seq<Entry>, duration: int)
    ensures Aggregate(es, duration).Err? <==>
      exists i :: 0 <= i < |es| && DeterminePeriod(es[i].key, duration).Err?
    ensures Aggregate(es, duration).Err? ==>
      exists i :: 0 <= i < |es| && DeterminePeriod(es[i].key, duration) == Err(Aggregate(es, duration).error)
        && forall j :: 0 <= j < i ==> DeterminePeriod(es[j].key, duration).Ok?
    ensures Supported(duration) ==> Aggregate(es, duration).Ok?
  {
    if es != [] {
      var init := es[..|es| - 1];
      AggregateErrors(init, duration);
      assert forall i :: 0 <= i < |init| ==> init[i] == es[i];
      ResolverErrors(es[|es| - 1].key, duration);
    }
  }

  /** The keys of the result are exactly the buckets of the input keys. */
  lemma {:induction false} AggregateKeys(es: seq<Entry>, duration: int)
    requires Aggregate(es, duration).Ok?
    ensures forall p :: p in Aggregate(es, duration).value.sticks <==>
      exists i :: 0 <= i < |es| && DeterminePeriod(es[i].key, duration) == Ok(p)
  {
    if es != [] {
      var n := |es| - 1;
      var init := es[..n];
      AggregateKeys(init, duration);
      var acc := Aggregate(init, duration).value;
      var q := DeterminePeriod(es[n].key, duration).value;
      assert Aggregate(es, duration) == Ok(Insert(acc, q, es[n].stick));
      forall p ensures p in Insert(acc, q, es[n].stick).sticks <==> HasBucket(es, duration, p)
      {
        LastBucket(es, duration, p);
      }
    }
  }

  /** Some item of `es` falls in bucket `p`. */
  ghost predicate HasBucket(es: seq<Entry>, duration: int, p: Stamp)
  {
    exists i :: 0 <= i < |es| && DeterminePeriod(es[i].key, duration) == Ok(p)
  }

  /** A stamp is the bucket of some item exactly when it is the bucket of an
      earlier item or of the last one. */
  lemma LastBucket(es: seq<Entry>, duration: int, p: Stamp)
    requires es != []
    ensures HasBucket(es, duration, p) <==>
      HasBucket(es[..|es| - 1], duration, p) || DeterminePeriod(es[|es| - 1].key, duration) == Ok(p)
  {
    var init := es[..|es| - 1];
    if i :| 0 <= i < |es| && DeterminePeriod(es[i].key, duration) == Ok(p) {
      if i < |es| - 1 {
        assert init[i] == es[i];
      }
    }
    if i :| 0 <= i < |init| && DeterminePeriod(init[i].key, duration) == Ok(p) {
      assert init[i] == es[i];
    }
  }

  /** The sticks of `es` whose timestamps fall in bucket `p`, in order. */
  function Members(es: seq<Entry>, duration: int, p: Stamp): seq<Stick>
  {
    if es == [] then []
    else
      var last := es[|es| - 1];
      Members(es[..|es| - 1], duration, p) + (if DeterminePeriod(last.key, duration) == Ok(p) then [last.stick] else [])
  }

  /** Folds a non-empty run of sticks with `Merge`, first to last. */
  function Fold(s: seq<Stick>): Stick
    requires s != []
  {
    if |s| == 1 then s[0] else Merge(Fold(s[..|s| - 1]), s[|s| - 1])
  }

  /** The bar of each bucket is the fold of the bucket's members, in the
      order the input dict lists them; a bucket absent from the result has no
      members. */
  lemma {:induction false} BucketIsFold(es: seq<Entry>, duration: int, p: Stamp)
    requires Aggregate(es, duration).Ok?
    ensures p in Aggregate(es, duration).value.sticks <==> Members(es, duration, p) != []
    ensures p in Aggregate(es, duration).value.sticks ==>
      Aggregate(es, duration).value.sticks[p] == Fold(Members(es, duration, p))
  {
    if es != [] {
      var n := |es| - 1;
      var init := es[..n];
      assert es[..n + 1] == es;
      BucketIsFold(init, duration, p);
      var acc := Aggregate(init, duration).value;
      var q := DeterminePeriod(es[n].key, duration).value;
      AggregateStep(es, n, duration, acc);
      var ms := Members(init, duration, p);
      var r := Insert(acc, q, es[n].stick);
      assert Aggregate(es, duration) == Ok(r);
      if q != p {
        assert Members(es, duration, p) == ms;
        assert p in r.sticks <==> p in acc.sticks;
        assert p in r.sticks ==> r.sticks[p] == acc.sticks[p];
      } else if ms == [] {
        assert Members(es, duration, p) == [es[n].stick];
        assert r.sticks[p] == es[n].stick;
      } else {
        var s := ms + [es[n].stick];
        assert Members(es, duration, p) == s;
        assert s[..|s| - 1] == ms;
        assert r.sticks[p] == Merge(Fold(ms), es[n].stick) == Fold(s);
      }
    }
  }

  // ---------------------------------------------------------------------------
  // The fold, field by field
  // ---------------------------------------------------------------------------

  function TotalVolume(s: seq<Stick>): int
  {
    if s == [] then 0 else TotalVolume(s[..|s| - 1]) + s[|s| - 1].volume
  }

  /** `bar` opens with `s[j]`: the first member holding the least `open_ts`. */
  ghost predicate OpensWith(s: seq<Stick>, j: int, bar: Stick)
  {
    && 0 <= j < |s| && bar.openTs == s[j].openTs && bar.open == s[j].open
    && (forall i :: 0 <= i < |s| ==> s[j].openTs <= s[i].openTs)
    && (forall i :: 0 <= i < j ==> s[j].openTs < s[i].openTs)
  }

  /** `bar` closes with `s[j]`: the first member holding the greatest
      `close_ts`. */
  ghost predicate ClosesWith(s: seq<Stick>, j: int, bar: Stick)
  {
    && 0 <= j < |s| && bar.closeTs == s[j].closeTs && bar.close == s[j].close
    && (forall i :: 0 <= i < |s| ==> s[i].closeTs <= s[j].closeTs)
    && (forall i :: 0 <= i < j ==> s[i].closeTs < s[j].closeTs)
  }

  /** The folded bar: volume is the members' total, high their greatest
      high, low their least low, open and `open_ts` those of the first member
      with the least `open_ts`, close and `close_ts` those of the first member
      with the greatest `close_ts`. */
  lemma FoldFields(s: seq<Stick>)
    requires s != []
    ensures Fold(s).volume == TotalVolume(s)
    ensures forall i :: 0 <= i < |s| ==> s[i].high <= Fold(s).high
    ensures exists i :: 0 <= i < |s| && s[i].high == Fold(s).high
    ensures forall i :: 0 <= i < |s| ==> Fold(s).low <= s[i].low
    ensures exists i :: 0 <= i < |s| && s[i].low == Fold(s).low
    ensures exists j :: OpensWith(s, j, Fold(s))
    ensures exists j :: ClosesWith(s, j, Fold(s))
  {
    FoldVolume(s);
    FoldHigh(s);
    FoldLow(s);
    FoldOpen(s);
    FoldClose(s);
  }

  lemma {:induction false} FoldVolume(s: seq<Stick>)
    requires s != []
    ensures Fold(s).volume == TotalVolume(s)
  {
    if |s| > 1 {
      FoldVolume(s[..|s| - 1]);
    }
  }

  lemma {:induction false} FoldHigh(s: seq<Stick>)
    requires s != []
    ensures forall i :: 0 <= i < |s| ==> s[i].high <= Fold(s).high
    ensures exists i :: 0 <= i < |s| && s[i].high == Fold(s).high
  {
    if |s| == 1 {
      assert s[0].high == Fold(s).high;
    } else {
      var init := s[..|s| - 1];
      FoldHigh(init);
      assert forall i :: 0 <= i < |init| ==> init[i] == s[i];
      var hi :| 0 <= hi < |init| && init[hi].high == Fold(init).high;
      if s[|s| - 1].high > Fold(init).high {
        assert s[|s| - 1].high == Fold(s).high;
      } else {
        assert s[hi].high == Fold(s).high;
      }
    }
  }

  lemma {:induction false} FoldLow(s: seq<Stick>)
    requires s != []
    ensures forall i :: 0 <= i < |s| ==> Fold(s).low <= s[i].low
    ensures exists i :: 0 <= i < |s| && s[i].low == Fold(s).low
  {
    if |s| == 1 {
      assert s[0].low == Fold(s).low;
    } else {
      var init := s[..|s| - 1];
      FoldLow(init);
      assert forall i :: 0 <= i < |init| ==> init[i] == s[i];
      var lo :| 0 <= lo < |init| && init[lo].low == Fold(init).low;
      if s[|s| - 1].low < Fold(init).low {
        assert s[|s| - 1].low == Fold(s).low;
      } else {
        assert s[lo].low == Fold(s).low;
      }
    }
  }

  lemma {:induction false} FoldOpen(s: seq<Stick>)
    requires s != []
    ensures exists j :: OpensWith(s, j, Fold(s))
  {
    if |s| == 1 {
      assert OpensWith(s, 0, Fold(s));
    } else {
      var init := s[..|s| - 1];
      FoldOpen(init);
      assert forall i :: 0 <= i < |init| ==> init[i] == s[i];
      var jo :| OpensWith(init, jo, Fold(init));
      if Fold(init).openTs > s[|s| - 1].openTs {
        assert OpensWith(s, |s| - 1, Fold(s));
      } else {
        assert OpensWith(s, jo, Fold(s));
      }
    }
  }

  lemma {:induction false} FoldClose(s: seq<Stick>)
    requires s != []
    ensures exists j :: ClosesWith(s, j, Fold(s))
  {
    if |s| == 1 {
      assert ClosesWith(s, 0, Fold(s));
    } else {
      var init := s[..|s| - 1];
      FoldClose(init);
      assert forall i :: 0 <= i < |init| ==> init[i] == s[i];
      var jc :| ClosesWith(init, jc, Fold(init));
      if Fold(init).closeTs < s[|s| - 1].closeTs {
        assert ClosesWith(s, |s| - 1, Fold(s));
      } else {
        assert ClosesWith(s, jc, Fold(s));
      }
    }
  }

  // ---------------------------------------------------------------------------
  // Bar invariants
  // ---------------------------------------------------------------------------

  /** The OHLC invariant of a bar. */
  predicate WellFormed(b: Stick)
  {
    b.low <= b.open <= b.high && b.low <= b.close <= b.high && b.openTs <= b.closeTs
  }

  /** Merging two well-formed bars gives a well-formed bar. */
  lemma MergeWellFormed(a: Stick, b: Stick)
    requires WellFormed(a) && WellFormed(b)
    ensures WellFormed(Merge(a, b))
  {
  }

  /** `summarize` keeps the OHLC invariant: well-formed input bars give
      well-formed output bars. */
  lemma {:induction false} AggregateWellFormed(es: seq<Entry>, duration: int)
    requires forall i :: 0 <= i < |es| ==> WellFormed(es[i].stick)
    requires Aggregate(es, duration).Ok?
    ensures forall p :: p in Aggregate(es, duration).value.sticks ==> WellFormed(Aggregate(es, duration).value.sticks[p])
  {
    if es != [] {
      var init := es[..|es| - 1];
      assert forall i :: 0 <= i < |init| ==> init[i] == es[i];
      AggregateWellFormed(init, duration);
      var acc := Aggregate(init, duration).value;
      var period := DeterminePeriod(es[|es| - 1].key, duration).value;
      if period in acc.sticks {
        MergeWellFormed(acc.sticks[period], es[|es| - 1].stick);
      }
    }
  }

  // ---------------------------------------------------------------------------
  // Algebra of the merge
  // ---------------------------------------------------------------------------

  /** The merge is associative, ties included: it keeps the first of the
      least open timestamps and the first of the greatest close timestamps. */
  lemma MergeAssociative(a: Stick, b: Stick, c: Stick)
    ensures Merge(Merge(a, b), c) == Merge(a, Merge(b, c))
  {
  }

  /** Two bars whose open timestamps differ and whose close timestamps differ
      merge to the same bar in either order. */
  lemma MergeCommutes(a: Stick, b: Stick)
    requires a.openTs != b.openTs && a.closeTs != b.closeTs
    ensures Merge(a, b) == Merge(b, a)
  {
  }

  /** On equal open timestamps the order of merging decides the open price:
      the merge is order-independent only up to ties. */
  lemma MergeOrderMattersOnTies()
    ensures var a := Stick(10, 10, 10, 10, 1, 0, 0);
            var b := Stick(20, 20, 20, 20, 1, 0, 0);
            Merge(a, b).open == 10 && Merge(b, a).open == 20
  {
  }

  // ---------------------------------------------------------------------------
  // Seeding from tickers
  // ---------------------------------------------------------------------------

  /** One stored ticker: its timestamp (epoch seconds, UTC), last traded
      price and volume. */
  datatype Ticker = Ticker(timestamp: int, ltp: int, volume: int)

  /** The bar a single ticker seeds. */
  function TickStick(t: Ticker): Stick
  {
    Stick(high := t.ltp, low := t.ltp, open := t.ltp, close := t.ltp,
          volume := t.volume, openTs := t.timestamp, closeTs := t.timestamp)
  }

  /** `stick_of[ts] = stick`: a new key goes to the end; an existing key keeps
      its place and takes the new value. */
  function Put(m: StickMap, k: Stamp, stick: Stick): StickMap
  {
    if k in m.sticks then StickMap(m.keys, m.sticks[k := stick])
    else StickMap(m.keys + [k], m.sticks[k := stick])
  }

  /** The dict the loop of `query_tickers` builds from `tickers`. */
  function Seed(tickers: seq<Ticker>): StickMap
  {
    if tickers == [] then Empty
    else
      var t := tickers[|tickers| - 1];
      Put(Seed(tickers[..|tickers| - 1]), Stamp(t.timestamp, true), TickStick(t))
  }

  /** The loop of `query_tickers` over the tickers the store returns. */
  method QueryTickers(tickers: seq<Ticker>) returns (stickOf: StickMap)
    ensures stickOf == Seed(tickers)
  {
    stickOf := Empty;
    for i := 0 to |tickers|
      invariant stickOf == Seed(tickers[..i])
    {
      var t := tickers[i];
      var ts := Stamp(t.timestamp, true);
      assert tickers[..i + 1][..i] == tickers[..i];
      stickOf := Put(stickOf, ts, TickStick(t));
    }
    assert tickers[..|tickers|] == tickers;
  }

  /** `stick_of[ts] = stick` keeps the dict well formed. */
  lemma PutValid(m: StickMap, k: Stamp, stick: Stick)
    requires m.Valid()
    ensures Put(m, k, stick).Valid() && k in Put(m, k, stick).sticks
  {
  }

  /** The seed is a well-formed dict. */
  lemma {:induction false} SeedValid(tickers: seq<Ticker>)
    ensures Seed(tickers).Valid()
  {
    if tickers != [] {
      var t := tickers[|tickers| - 1];
      SeedValid(tickers[..|tickers| - 1]);
      PutValid(Seed(tickers[..|tickers| - 1]), Stamp(t.timestamp, true), TickStick(t));
    }
  }

  /** The seed has one key per distinct ticker timestamp. */
  lemma {:induction false} SeedKeys(tickers: seq<Ticker>)
    ensures forall k :: k in Seed(tickers).sticks <==>
      exists i :: 0 <= i < |tickers| && k == Stamp(tickers[i].timestamp, true)
  {
    if tickers != [] {
      var init := tickers[..|tickers| - 1];
      SeedKeys(init);
      assert forall i :: 0 <= i < |init| ==> init[i] == tickers[i];
    }
  }

  /** Each key of the seed is a UTC stamp, and its bar is the one-tick bar of
      the last ticker with that timestamp. */
  lemma {:induction false} SeedValues(tickers: seq<Ticker>, k: Stamp)
    requires k in Seed(tickers).sticks
    ensures k.utc
    ensures exists i :: LastTickerAt(tickers, i, k.secs) && Seed(tickers).sticks[k] == TickStick(tickers[i])
  {
    assert tickers != [];
    var n := |tickers| - 1;
    var init := tickers[..n];
    var t := tickers[n];
    var prev := Seed(init);
    assert Seed(tickers) == Put(prev, Stamp(t.timestamp, true), TickStick(t));
    if k == Stamp(t.timestamp, true) {
      assert Seed(tickers).sticks[k] == TickStick(t);
      assert LastTickerAt(tickers, n, k.secs);
    } else {
      assert k in prev.sticks && Seed(tickers).sticks[k] == prev.sticks[k];
      SeedValues(init, k);
      var i :| LastTickerAt(init, i, k.secs) && prev.sticks[k] == TickStick(init[i]);
      assert init[i] == tickers[i];
      assert t.timestamp != k.secs;
      assert forall j :: i < j < n ==> init[j] == tickers[j];
      assert LastTickerAt(tickers, i, k.secs);
    }
  }

  /** Each bar of the seed is well formed and opens and closes at its own
      key. */
  lemma SeedBars(tickers: seq<Ticker>, k: Stamp)
    requires k in Seed(tickers).sticks
    ensures WellFormed(Seed(tickers).sticks[k])
    ensures Seed(tickers).sticks[k].openTs == k.secs == Seed(tickers).sticks[k].closeTs
  {
    SeedValues(tickers, k);
  }

  /** `tickers[i]` is the last ticker stamped `secs`. */
  ghost predicate LastTickerAt(tickers: seq<Ticker>, i: int, secs: int)
  {
    0 <= i < |tickers| && tickers[i].timestamp == secs &&
    forall j :: i < j < |tickers| ==> tickers[j].timestamp != secs
  }
}
