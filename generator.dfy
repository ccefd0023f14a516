/** `run` of the chart data generator: the BTC_JPY ticks seed a dict of
    one-tick bars, and `summarize` is applied once per candlestick duration,
    each level taking the previous level as its input. */
module Generator {
  import opened Enumerations
  import opened Period
  import opened Aggregation
  import opened Chain

  /** Every candlestick duration is one the resolver accepts. */
  lemma DurationsSupported(c: Candlestick)
    ensures Supported(Value(c))
  {
  }

  /** The seed never ties: its keys are distinct UTC stamps and every bar
      opens and closes at its key. */
  lemma SeedTieFree(tickers: seq<Ticker>)
    ensures Seed(tickers).Valid() && TieFree(Items(Seed(tickers)))
  {
    SeedValid(tickers);
    var m := Seed(tickers);
    forall i, j | 0 <= i < j < |m.keys|
      ensures m.sticks[m.keys[i]].openTs != m.sticks[m.keys[j]].openTs
      ensures m.sticks[m.keys[i]].closeTs != m.sticks[m.keys[j]].closeTs
    {
      SeedValues(tickers, m.keys[i]);
      SeedValues(tickers, m.keys[j]);
    }
  }

  /** Level `k` of the chain as `run` computes it: the seed summarised at the
      first duration, then each level summarised at the next duration. */
  function ChainLevel(seed: StickMap, k: nat): (r: Result<StickMap>)
    requires seed.Valid() && k < |Candlesticks|
    ensures r.Ok? ==> r.value.Valid()
  {
    if k == 0 then Aggregate(Items(seed), Value(Candlesticks[0]))
    else
      match ChainLevel(seed, k - 1)
      case Err(e) => Err(e)
      case Ok(prev) => Aggregate(Items(prev), Value(Candlesticks[k]))
  }

  /** The members `run` has visited after `k` levels are the BTC_JPY
      members of the first `k` durations. */
  ghost predicate VisitedMembers(chartOrder: seq<ChartMember>, k: nat)
  {
    |chartOrder| == k <= |Candlesticks| &&
    forall i :: 0 <= i < k ==> chartOrder[i] == ChartEntry(BtcJpy, Candlesticks[i])
  }

  /** Visiting the next duration extends the visited members by its
      member, which is new. */
  lemma VisitNext(chartOrder: seq<ChartMember>, k: nat, chartType: ChartMember)
    requires VisitedMembers(chartOrder, k) && k < |Candlesticks|
    requires chartType == ChartEntry(BtcJpy, Candlesticks[k])
    ensures VisitedMembers(chartOrder + [chartType], k + 1)
    ensures chartType !in chartOrder
  {
    CandlestickTable();
    forall i | 0 <= i < k ensures chartOrder[i] != chartType {
      assert Value(Candlesticks[i]) < Value(Candlesticks[k]);
    }
  }

  /** Level `k` is the summary of the level before it (of the seed for the
      first level). */
  lemma NextLevel(seed: StickMap, k: nat, previous: StickMap)
    requires seed.Valid() && k < |Candlesticks|
    requires k == 0 ==> previous == seed
    requires k > 0 ==> ChainLevel(seed, k - 1) == Ok(previous)
    ensures previous.Valid()
    ensures ChainLevel(seed, k) == Aggregate(Items(previous), Value(Candlesticks[k]))
  {
  }

  /** Each consecutive pair of durations nests, except ten minutes followed
      by fifteen. */
  lemma ConsecutiveAligned(k: nat)
    requires 0 < k < |Candlesticks|
    ensures Aligned(Value(Candlesticks[k - 1]), Value(Candlesticks[k])) <==> k != 5
  {
    CandlestickTable();
  }

  /** Every level of the chain equals the direct summary of the seed at its
      duration, except the fifteen-minute level; the thirty-minute level is
      right again because ten minutes divides thirty. */
  lemma {:induction false} ChainLevelIsDirect(seed: StickMap, k: nat)
    requires seed.Valid() && TieFree(Items(seed))
    requires k < |Candlesticks| && k != 5
    ensures ChainLevel(seed, k) == Aggregate(Items(seed), Value(Candlesticks[k]))
    ensures ChainLevel(seed, k).Ok?
  {
    CandlestickTable();
    var es := Items(seed);
    AggregateErrors(es, Value(Candlesticks[k]));
    if k == 6 {
      ChainLevelIsDirect(seed, 4);
      var tenMinutes := Aggregate(es, 600).value;
      TieFreeLevel(es, 600);
      ChainedEqualsDirect(Items(tenMinutes), 900, 1800);
      ChainedEqualsDirect(es, 600, 1800);
    } else if k > 0 {
      ChainLevelIsDirect(seed, k - 1);
      ConsecutiveAligned(k);
      ChainedEqualsDirect(es, Value(Candlesticks[k - 1]), Value(Candlesticks[k]));
    }
  }

  /** The fifteen-minute level never fails; it is the ten-minute summary
      summarised again. */
  lemma FifteenMinuteLevel(seed: StickMap)
    requires seed.Valid() && TieFree(Items(seed))
    ensures ChainLevel(seed, 5).Ok? && Aggregate(Items(seed), 600).Ok?
    ensures ChainLevel(seed, 5) == Aggregate(Items(Aggregate(Items(seed), 600).value), 900)
  {
    CandlestickTable();
    ChainLevelIsDirect(seed, 4);
    AggregateErrors(Items(Aggregate(Items(seed), 600).value), 900);
  }

  /** Floored to tens and then to fifteens, a minute lands where flooring
      it to fifteens puts it, except for minutes 15 to 19 and 45 to 49. */
  lemma MinuteFloors(m: int)
    requires 0 <= m < 60
    ensures m / 10 * 10 / 15 * 15 == m / 15 * 15 <==> !(15 <= m % 30 < 20)
  {
    if m < 10 {
    } else if m < 15 {
    } else if m < 20 {
    } else if m < 30 {
    } else if m < 40 {
    } else if m < 45 {
    } else if m < 50 {
    } else {
    }
  }

  /** The chain puts a tick in the wrong fifteen-minute bucket exactly when
      its minute within the half hour is 15 to 19: the ten-minute bucket
      `:10` (or `:40`) starts before the fifteen-minute boundary it spans. */
  lemma MisplacedMinutes(ts: Stamp)
    ensures DeterminePeriod(ts, 600).Ok? && DeterminePeriod(ts, 900).Ok?
    ensures DeterminePeriod(DeterminePeriod(ts, 600).value, 900) == DeterminePeriod(ts, 900) <==>
      !(15 <= Minute(ts.secs) % 30 < 20)
  {
    SubHourBucket(ts, 600);
    var ten := DeterminePeriod(ts, 600).value;
    SubHourBucket(ten, 900);
    SubHourBucket(ts, 900);
    var chained := DeterminePeriod(ten, 900).value;
    var direct := DeterminePeriod(ts, 900).value;
    assert chained.utc && direct.utc;
    FieldsOfInstant(chained.secs);
    FieldsOfInstant(direct.secs);
    FieldsOfInstant(ts.secs);
    MinuteFloors(Minute(ts.secs));
    assert chained == direct <==> Minute(chained.secs) == Minute(direct.secs);
  }

  /** The clock fields of 00:10:00 and 00:15:00 on 1970-01-01. */
  lemma EarlyFields()
    ensures Day(600) == 0 && Hour(600) == 0 && Minute(600) == 10 && Second(600) == 0
    ensures Day(900) == 0 && Hour(900) == 0 && Minute(900) == 15 && Second(900) == 0
  {
  }

  /** A sub-hour bucket whose fields are known is the instant of those
      fields. */
  lemma SubHourBucketAt(ts: Stamp, d: int, minute: int)
    requires 60 <= d < 3600 && Day(ts.secs) == 0 && Hour(ts.secs) == 0
    requires Minute(ts.secs) / (d / 60) * (d / 60) == minute
    ensures DeterminePeriod(ts, d) == Ok(Stamp(60 * minute, true))
  {
    SubHourBucket(ts, d);
    var r := DeterminePeriod(ts, d).value;
    FieldsOfInstant(r.secs);
  }

  /** 00:15:00 lies in the ten-minute bucket 00:10:00. */
  lemma TenMinuteBucketOf900()
    ensures DeterminePeriod(Stamp(900, true), 600) == Ok(Stamp(600, true))
  {
    EarlyFields();
    SubHourBucketAt(Stamp(900, true), 600, 10);
  }

  /** 00:10:00 lies in the fifteen-minute bucket 00:00:00. */
  lemma FifteenMinuteBucketOf600()
    ensures DeterminePeriod(Stamp(600, true), 900) == Ok(Stamp(0, true))
  {
    EarlyFields();
    SubHourBucketAt(Stamp(600, true), 900, 0);
  }

  /** 00:15:00 starts a fifteen-minute bucket. */
  lemma FifteenMinuteBucketOf900()
    ensures DeterminePeriod(Stamp(900, true), 900) == Ok(Stamp(900, true))
  {
    EarlyFields();
    SubHourBucketAt(Stamp(900, true), 900, 15);
  }

  /** A dict holding one bar summarises to a dict holding the same bar
      under its bucket. */
  lemma SingleBar(key: Stamp, stick: Stick, d: int)
    requires DeterminePeriod(key, d).Ok?
    ensures var p := DeterminePeriod(key, d).value;
      Aggregate([Entry(key, stick)], d) == Ok(StickMap([p], map[p := stick]))
  {
    var es := [Entry(key, stick)];
    assert es[..0] == [] && es[..1] == es;
    AggregateStep(es, 0, d, Empty);
    var p := DeterminePeriod(key, d).value;
    assert Insert(Empty, p, stick) == StickMap([p], map[p := stick]);
  }

  /** The items of a dict holding one bar. */
  lemma SingleItems(key: Stamp, stick: Stick)
    ensures StickMap([key], map[key := stick]).Valid()
    ensures Items(StickMap([key], map[key := stick])) == [Entry(key, stick)]
  {
  }

  /** A single tick at 00:15:00 on 1970-01-01: the direct fifteen-minute
      summary keys it at 00:15, the chain at 00:00. */
  lemma FifteenMinuteCounterexample()
    ensures var seed := Seed([Ticker(900, 100, 1)]);
      && seed.Valid() && TieFree(Items(seed))
      && ChainLevel(seed, 5).Ok? && ChainLevel(seed, 5).value.keys == [Stamp(0, true)]
      && Aggregate(Items(seed), 900).Ok? && Aggregate(Items(seed), 900).value.keys == [Stamp(900, true)]
  {
    var seed := Seed([Ticker(900, 100, 1)]);
    SeedTieFree([Ticker(900, 100, 1)]);
    var tick := TickStick(Ticker(900, 100, 1));
    assert seed == StickMap([Stamp(900, true)], map[Stamp(900, true) := tick]);
    SingleItems(Stamp(900, true), tick);
    FifteenMinuteLevel(seed);
    TenMinuteBucketOf900();
    SingleBar(Stamp(900, true), tick, 600);
    SingleItems(Stamp(600, true), tick);
    FifteenMinuteBucketOf600();
    SingleBar(Stamp(600, true), tick, 900);
    FifteenMinuteBucketOf900();
    SingleBar(Stamp(900, true), tick, 900);
  }

  /** `getattr(ChartType, f'{product_code.name}_{c.name}')`: whatever the
      product, the member found is the BTC_JPY member of duration `c`. */
  method GetChartType(chartTypes: seq<ChartMember>, productCode: ProductCode, c: Candlestick) returns (chartType: ChartMember)
    requires IsChartTable(chartTypes)
    ensures chartType == ChartEntry(BtcJpy, c)
  {
    ChartTypeAliases(chartTypes, productCode, c);
    chartType := ChartTypeOf(chartTypes, ChartName(productCode, c)).value;
  }

  /** `run`: builds the ChartType table, seeds the chain from the tickers
      the store returns for BTC_JPY, and summarises level by level. The
      result dict maps each ChartType member, in insertion order
      `chartOrder`, to its level. */
  method Run(tickers: seq<Ticker>) returns (sticksOf: map<ChartMember, StickMap>, chartOrder: seq<ChartMember>)
    ensures Seed(tickers).Valid()
    ensures VisitedMembers(chartOrder, |Candlesticks|)
    ensures forall ct :: ct in sticksOf <==> ct in chartOrder
    ensures forall k :: 0 <= k < |chartOrder| ==> ChainLevel(Seed(tickers), k) == Ok(sticksOf[chartOrder[k]])
  {
    var chartTypes := BuildChartTypes();
    var productCode := BtcJpy;
    var stickOf := QueryTickers(tickers);
    SeedValid(tickers);
    ghost var seed := stickOf;
    sticksOf := map[];
    chartOrder := [];
    for k := 0 to |Candlesticks|
      invariant stickOf.Valid()
      invariant VisitedMembers(chartOrder, k)
      invariant forall ct :: ct in sticksOf <==> ct in chartOrder
      invariant forall i :: 0 <= i < k ==> ChainLevel(seed, i) == Ok(sticksOf[chartOrder[i]])
      invariant k == 0 ==> stickOf == seed
      invariant k > 0 ==> ChainLevel(seed, k - 1) == Ok(stickOf)
    {
      var c := Candlesticks[k];
      var chartType := GetChartType(chartTypes, productCode, c);
      VisitNext(chartOrder, k, chartType);
      DurationsSupported(c);
      AggregateErrors(Items(stickOf), Value(c));
      var level := Summarize(stickOf, Value(c));
      NextLevel(seed, k, stickOf);
      ghost var previous, order := sticksOf, chartOrder;
      sticksOf := sticksOf[chartType := level.value];
      chartOrder := chartOrder + [chartType];
      stickOf := level.value;
      forall i | 0 <= i < k + 1 ensures ChainLevel(seed, i) == Ok(sticksOf[chartOrder[i]]) {
        if i < k {
          assert chartOrder[i] == order[i] && sticksOf[chartOrder[i]] == previous[order[i]];
        }
      }
    }
  }

  /** The level each level is summarised from in the corrected chain: the
      nearest earlier level whose duration divides its own (five minutes for
      fifteen, the previous level otherwise). */
  function Source(k: nat): (j: nat)
    requires 0 < k < |Candlesticks|
    ensures j < k && Aligned(Value(Candlesticks[j]), Value(Candlesticks[k]))
    ensures Value(Candlesticks[k]) % Value(Candlesticks[j]) == 0
  {
    CandlestickTable();
    NeighboursAligned();
    if k == 5 then 3 else k - 1
  }

  /** Each candlestick duration is aligned with the one it is summarised
      from in the corrected chain. */
  lemma NeighboursAligned()
    ensures Aligned(15, 30) && Aligned(30, 60) && Aligned(60, 300) && Aligned(300, 600)
    ensures Aligned(300, 900) && Aligned(900, 1800) && Aligned(1800, 3600)
    ensures Aligned(3600, 14400) && Aligned(14400, 28800) && Aligned(28800, 86400)
    ensures Aligned(86400, 604800)
  {
  }

  /** `run` with each level summarised from `Source(k)` instead of from the
      level just before it: every level equals the direct summary of the
      seed. */
  method RunNested(tickers: seq<Ticker>) returns (sticksOf: map<ChartMember, StickMap>, chartOrder: seq<ChartMember>)
    ensures Seed(tickers).Valid()
    ensures VisitedMembers(chartOrder, |Candlesticks|)
    ensures forall ct :: ct in sticksOf <==> ct in chartOrder
    ensures forall k :: 0 <= k < |chartOrder| ==>
      k < |Candlesticks| && Aggregate(Items(Seed(tickers)), Value(Candlesticks[k])) == Ok(sticksOf[chartOrder[k]])
  {
    var chartTypes := BuildChartTypes();
    var productCode := BtcJpy;
    var stickOf := QueryTickers(tickers);
    SeedTieFree(tickers);
    ghost var es := Items(stickOf);
    var levels: seq<StickMap> := [];
    sticksOf := map[];
    chartOrder := [];
    for k := 0 to |Candlesticks|
      invariant VisitedMembers(chartOrder, k) && |levels| == k
      invariant forall ct :: ct in sticksOf <==> ct in chartOrder
      invariant forall i :: 0 <= i < k ==> Aggregate(es, Value(Candlesticks[i])) == Ok(levels[i])
      invariant forall i :: 0 <= i < k ==> sticksOf[chartOrder[i]] == levels[i]
    {
      var c := Candlesticks[k];
      var chartType := GetChartType(chartTypes, productCode, c);
      VisitNext(chartOrder, k, chartType);
      DurationsSupported(c);
      var source := stickOf;
      if k > 0 {
        source := levels[Source(k)];
        ChainedEqualsDirect(es, Value(Candlesticks[Source(k)]), Value(c));
      }
      AggregateErrors(Items(source), Value(c));
      var level := Summarize(source, Value(c));
      assert Aggregate(es, Value(c)) == level;
      ghost var previous, order, previousLevels := sticksOf, chartOrder, levels;
      sticksOf := sticksOf[chartType := level.value];
      chartOrder := chartOrder + [chartType];
      levels := levels + [level.value];
      forall i | 0 <= i < k + 1
        ensures Aggregate(es, Value(Candlesticks[i])) == Ok(levels[i])
        ensures sticksOf[chartOrder[i]] == levels[i]
      {
        if i < k {
          assert chartOrder[i] == order[i] && levels[i] == previousLevels[i];
          assert sticksOf[chartOrder[i]] == previous[order[i]];
        }
      }
    }
  }
}
