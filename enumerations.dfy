/** The bitFlyer enumerations the aggregation engine depends on: the
    candlestick durations, the product codes, and the `ChartType` registry that
    names one chart per product and duration. */
module Enumerations {

  // ---------------------------------------------------------------------------
  // Candlestick durations
  // ---------------------------------------------------------------------------

  const OneMinuteSeconds: int := 60
  const OneHourSeconds: int := OneMinuteSeconds * 60
  const OneDaySeconds: int := OneHourSeconds * 24
  const OneWeekSeconds: int := OneDaySeconds * 7

  /** The members of the `Candlestick` enumeration, in declaration order. */
  datatype Candlestick =
    | FifteenSeconds | ThirtySeconds
    | OneMinute | FiveMinutes | TenMinutes | FifteenMinutes | ThirtyMinutes
    | OneHour | FourHours | EightHours
    | OneDay | OneWeek

  /** The value of a member: its duration in seconds. */
  function Value(c: Candlestick): (v: int)
    ensures v > 0
  {
    match c
    case FifteenSeconds => 15
    case ThirtySeconds => 30
    case OneMinute => OneMinuteSeconds
    case FiveMinutes => OneMinuteSeconds * 5
    case TenMinutes => OneMinuteSeconds * 10
    case FifteenMinutes => OneMinuteSeconds * 15
    case ThirtyMinutes => OneMinuteSeconds * 30
    case OneHour => OneHourSeconds
    case FourHours => OneHourSeconds * 4
    case EightHours => OneHourSeconds * 8
    case OneDay => OneDaySeconds
    case OneWeek => OneWeekSeconds
  }

  /** The member name as Python spells it (`c.name`). */
  function CandlestickName(c: Candlestick): string
  {
    match c
    case FifteenSeconds => "FIFTEEN_SECONDS"
    case ThirtySeconds => "THIRTY_SECONDS"
    case OneMinute => "ONE_MINUTE"
    case FiveMinutes => "FIVE_MINUTES"
    case TenMinutes => "TEN_MINUTES"
    case FifteenMinutes => "FIFTEEN_MINUTES"
    case ThirtyMinutes => "THIRTY_MINUTES"
    case OneHour => "ONE_HOUR"
    case FourHours => "FOUR_HOURS"
    case EightHours => "EIGHT_HOURS"
    case OneDay => "ONE_DAY"
    case OneWeek => "ONE_WEEK"
  }

  /** Iterating `for c in Candlestick` visits the members in this order. */
  const Candlesticks: seq<Candlestick> :=
    [FifteenSeconds, ThirtySeconds, OneMinute, FiveMinutes, TenMinutes, FifteenMinutes,
     ThirtyMinutes, OneHour, FourHours, EightHours, OneDay, OneWeek]

  /** The iteration order visits every member exactly once, and the values
      come out as 15, 30, 60, 300, 600, 900, 1800, 3600, 14400, 28800, 86400,
      604800 seconds: strictly ascending. */
  lemma CandlestickTable()
    ensures forall c :: c in Candlesticks
    ensures forall i, j :: 0 <= i < j < |Candlesticks| ==> Candlesticks[i] != Candlesticks[j]
    ensures |Candlesticks| == 12
    ensures Value(Candlesticks[0]) == 15 && Value(Candlesticks[1]) == 30
    ensures Value(Candlesticks[2]) == 60 && Value(Candlesticks[3]) == 300
    ensures Value(Candlesticks[4]) == 600 && Value(Candlesticks[5]) == 900
    ensures Value(Candlesticks[6]) == 1800 && Value(Candlesticks[7]) == 3600
    ensures Value(Candlesticks[8]) == 14400 && Value(Candlesticks[9]) == 28800
    ensures Value(Candlesticks[10]) == 86400 && Value(Candlesticks[11]) == 604800
    ensures forall i, j :: 0 <= i < j < |Candlesticks| ==> Value(Candlesticks[i]) < Value(Candlesticks[j])
  {
    forall c ensures c in Candlesticks {
      match c
      case FifteenSeconds => assert Candlesticks[0] == c;
      case ThirtySeconds => assert Candlesticks[1] == c;
      case OneMinute => assert Candlesticks[2] == c;
      case FiveMinutes => assert Candlesticks[3] == c;
      case TenMinutes => assert Candlesticks[4] == c;
      case FifteenMinutes => assert Candlesticks[5] == c;
      case ThirtyMinutes => assert Candlesticks[6] == c;
      case OneHour => assert Candlesticks[7] == c;
      case FourHours => assert Candlesticks[8] == c;
      case EightHours => assert Candlesticks[9] == c;
      case OneDay => assert Candlesticks[10] == c;
      case OneWeek => assert Candlesticks[11] == c;
    }
  }

  /** The named units are built from each other. */
  lemma UnitsNest()
    ensures Value(OneWeek) == 7 * Value(OneDay)
    ensures Value(OneDay) == 24 * Value(OneHour)
    ensures Value(OneHour) == 60 * Value(OneMinute)
  {
  }

  /** Each duration is a whole number of the unit its resolver rule floors,
      and that number divides the next unit up: sub-minute values divide 60,
      sub-hour values are whole minutes dividing 60, sub-day values are whole
      hours dividing 24. */
  lemma WholeUnits(c: Candlestick)
    ensures Value(c) < 60 ==> 60 % Value(c) == 0
    ensures 60 <= Value(c) < 3600 ==> Value(c) % 60 == 0 && 60 % (Value(c) / 60) == 0
    ensures 3600 <= Value(c) < 86400 ==> Value(c) % 3600 == 0 && 24 % (Value(c) / 3600) == 0
    ensures Value(c) >= 86400 ==> Value(c) == 86400 || Value(c) == 604800
  {
  }

  /** Consecutive durations do not always nest: ten minutes does not divide
      fifteen. */
  lemma TenMinutesDoNotDivideFifteen()
    ensures Candlesticks[4] == TenMinutes && Candlesticks[5] == FifteenMinutes
    ensures Value(FifteenMinutes) % Value(TenMinutes) != 0
  {
  }

  // ---------------------------------------------------------------------------
  // Product codes and the ChartType registry
  // ---------------------------------------------------------------------------

  /** The members of the `ProductCode` enumeration, in declaration order. */
  datatype ProductCode =
    | BtcJpy | XrpJpy | EthJpy | XlmJpy | MonaJpy | EthBtc | BchBtc | FxBtcJpy

  function ProductName(p: ProductCode): string
  {
    match p
    case BtcJpy => "BTC_JPY"
    case XrpJpy => "XRP_JPY"
    case EthJpy => "ETH_JPY"
    case XlmJpy => "XLM_JPY"
    case MonaJpy => "MONA_JPY"
    case EthBtc => "ETH_BTC"
    case BchBtc => "BCH_BTC"
    case FxBtcJpy => "FX_BTC_JPY"
  }

  const ProductCodes: seq<ProductCode> :=
    [BtcJpy, XrpJpy, EthJpy, XlmJpy, MonaJpy, EthBtc, BchBtc, FxBtcJpy]

  /** One `(name, value)` pair handed to `enum.Enum('ChartType', ...)`. */
  datatype ChartMember = ChartMember(name: string, value: int)

  /** The name `f'{p.name}_{c.name}'`. */
  function ChartName(p: ProductCode, c: Candlestick): string
  {
    ProductName(p) + ("_" + CandlestickName(c))
  }

  /** The `chart_types` entry for one product and duration: its name and its
      value in seconds. */
  function ChartEntry(p: ProductCode, c: Candlestick): ChartMember
  {
    ChartMember(ChartName(p, c), Value(c))
  }

  /** The shape of the `chart_types` list: product-major, one entry per
      product and duration. */
  ghost predicate IsChartTable(table: seq<ChartMember>)
  {
    |table| == |ProductCodes| * |Candlesticks| && TableRows(table)
  }

  /** Every entry of `table` is the one its position calls for. */
  ghost predicate TableRows(table: seq<ChartMember>)
    requires |table| <= |ProductCodes| * |Candlesticks|
  {
    forall i :: 0 <= i < |table| ==> table[i] == ChartEntry(ProductCodes[i / 12], Candlesticks[i % 12])
  }

  /** Appending the entry for product `pi` and duration `ci` at position
      `pi * 12 + ci` keeps every entry in its place. */
  lemma TableGrows(table: seq<ChartMember>, pi: nat, ci: nat)
    requires pi < |ProductCodes| && ci < |Candlesticks| && |table| == pi * 12 + ci && TableRows(table)
    ensures TableRows(table + [ChartEntry(ProductCodes[pi], Candlesticks[ci])])
  {
    var t := table + [ChartEntry(ProductCodes[pi], Candlesticks[ci])];
    forall i | 0 <= i < |t| ensures t[i] == ChartEntry(ProductCodes[i / 12], Candlesticks[i % 12]) {
      if i == |table| {
        RowColumn(pi, ci);
      }
    }
  }

  /** The nested loop that fills `chart_types`. */
  method BuildChartTypes() returns (chartTypes: seq<ChartMember>)
    ensures IsChartTable(chartTypes)
  {
    chartTypes := [];
    var pi := 0;
    while pi < |ProductCodes|
      invariant 0 <= pi <= |ProductCodes|
      invariant |chartTypes| == pi * 12 && TableRows(chartTypes)
    {
      var p := ProductCodes[pi];
      var ci := 0;
      while ci < |Candlesticks|
        invariant 0 <= ci <= |Candlesticks|
        invariant |chartTypes| == pi * 12 + ci && TableRows(chartTypes)
      {
        var c := Candlesticks[ci];
        TableGrows(chartTypes, pi, ci);
        chartTypes := chartTypes + [ChartEntry(p, c)];
        ci := ci + 1;
      }
      pi := pi + 1;
    }
  }

  // ---------------------------------------------------------------------------
  // Member lookup on the ChartType enumeration
  // ---------------------------------------------------------------------------

  datatype Option<T> = None | Some(value: T)

  /** The first position of `table` whose entry is named `name`. */
  function IndexOfName(table: seq<ChartMember>, name: string): (r: Option<nat>)
    ensures r.Some? ==> r.value < |table| && table[r.value].name == name
    ensures r.Some? ==> forall i :: 0 <= i < r.value ==> table[i].name != name
    ensures r.None? ==> forall i :: 0 <= i < |table| ==> table[i].name != name
  {
    if table == [] then None
    else if table[0].name == name then Some(0)
    else
      match IndexOfName(table[1..], name)
      case None => None
      case Some(i) => Some(i + 1)
  }

  /** The first position of `table` whose entry has value `v`. */
  function IndexOfValue(table: seq<ChartMember>, v: int): (r: Option<nat>)
    ensures r.Some? ==> r.value < |table| && table[r.value].value == v
    ensures r.Some? ==> forall i :: 0 <= i < r.value ==> table[i].value != v
    ensures r.None? ==> forall i :: 0 <= i < |table| ==> table[i].value != v
  {
    if table == [] then None
    else if table[0].value == v then Some(0)
    else
      match IndexOfValue(table[1..], v)
      case None => None
      case Some(i) => Some(i + 1)
  }

  /** `getattr(ChartType, name)` on the enumeration built from `table`.
      `enum.Enum` turns an entry whose value repeats an earlier one into an
      alias of that earlier member, so a declared name resolves to the first
      entry carrying the same value; an undeclared name (`AttributeError`)
      gives `None`. */
  function ChartTypeOf(table: seq<ChartMember>, name: string): (r: Option<ChartMember>)
    ensures r.None? <==> forall i :: 0 <= i < |table| ==> table[i].name != name
    ensures r.Some? ==> exists i :: 0 <= i < |table| && table[i].name == name && table[i].value == r.value.value
    ensures r.Some? ==>
      exists j :: 0 <= j < |table| && table[j] == r.value && forall i :: 0 <= i < j ==> table[i].value != r.value.value
  {
    match IndexOfName(table, name)
    case None => None
    case Some(i) =>
      var j := IndexOfValue(table, table[i].value);
      assert j.Some?;
      Some(table[j.value])
  }

  /** Where `p` stands in `ProductCodes`. */
  function ProductIndex(p: ProductCode): (i: nat)
    ensures i < |ProductCodes| && ProductCodes[i] == p
  {
    match p
    case BtcJpy => 0
    case XrpJpy => 1
    case EthJpy => 2
    case XlmJpy => 3
    case MonaJpy => 4
    case EthBtc => 5
    case BchBtc => 6
    case FxBtcJpy => 7
  }

  /** Where `c` stands in `Candlesticks`. */
  function CandlestickIndex(c: Candlestick): (i: nat)
    ensures i < |Candlesticks| && Candlesticks[i] == c
  {
    match c
    case FifteenSeconds => 0
    case ThirtySeconds => 1
    case OneMinute => 2
    case FiveMinutes => 3
    case TenMinutes => 4
    case FifteenMinutes => 5
    case ThirtyMinutes => 6
    case OneHour => 7
    case FourHours => 8
    case EightHours => 9
    case OneDay => 10
    case OneWeek => 11
  }

  /** The candlestick a member name spells, if any. */
  function CandlestickOfName(s: string): Option<Candlestick>
  {
    if s == "FIFTEEN_SECONDS" then Some(FifteenSeconds)
    else if s == "THIRTY_SECONDS" then Some(ThirtySeconds)
    else if s == "ONE_MINUTE" then Some(OneMinute)
    else if s == "FIVE_MINUTES" then Some(FiveMinutes)
    else if s == "TEN_MINUTES" then Some(TenMinutes)
    else if s == "FIFTEEN_MINUTES" then Some(FifteenMinutes)
    else if s == "THIRTY_MINUTES" then Some(ThirtyMinutes)
    else if s == "ONE_HOUR" then Some(OneHour)
    else if s == "FOUR_HOURS" then Some(FourHours)
    else if s == "EIGHT_HOURS" then Some(EightHours)
    else if s == "ONE_DAY" then Some(OneDay)
    else if s == "ONE_WEEK" then Some(OneWeek)
    else None
  }

  /** The product a chart name starts with, told apart by its first, second
      and fifth characters. */
  function ProductOfChartName(s: string): ProductCode
    requires |s| >= 5
  {
    match s[0]
    case 'B' => if s[1] == 'T' then BtcJpy else BchBtc
    case 'X' => if s[1] == 'R' then XrpJpy else XlmJpy
    case 'E' => if s[4] == 'J' then EthJpy else EthBtc
    case 'M' => MonaJpy
    case _ => FxBtcJpy
  }

  /** Member names spell their candlestick unambiguously. */
  lemma CandlestickNameInverse(c: Candlestick)
    ensures CandlestickOfName(CandlestickName(c)) == Some(c)
  {
  }

  /** A chart name determines its product and its candlestick: the names
      handed to `enum.Enum` are pairwise distinct. */
  lemma ChartNameInjective(p: ProductCode, c: Candlestick, q: ProductCode, d: Candlestick)
    requires ChartName(p, c) == ChartName(q, d)
    ensures p == q && c == d
  {
    ChartNameParts(p, c);
    ChartNameParts(q, d);
    CandlestickNameInverse(c);
    CandlestickNameInverse(d);
  }

  /** A chart name is read back as its product and, past the product name
      and the underscore, its candlestick name. */
  lemma ChartNameParts(p: ProductCode, c: Candlestick)
    ensures |ChartName(p, c)| >= 5 && ProductOfChartName(ChartName(p, c)) == p
    ensures ChartName(p, c)[|ProductName(p)| + 1..] == CandlestickName(c)
  {
    ProductRead(p, "_" + CandlestickName(c));
    DropHead(ProductName(p), '_', CandlestickName(c));
  }

  lemma DropHead(a: string, x: char, b: string)
    ensures (a + ([x] + b))[|a| + 1..] == b
  {
    assert (a + ([x] + b))[|a|..] == [x] + b;
  }

  /** The product is read back from the head of a chart name, whatever
      follows it. */
  lemma ProductRead(p: ProductCode, rest: string)
    ensures |ProductName(p) + rest| >= 5 && ProductOfChartName(ProductName(p) + rest) == p
  {
    var s := ProductName(p) + rest;
    assert s[0] == ProductName(p)[0] && s[1] == ProductName(p)[1] && s[4] == ProductName(p)[4];
  }

  /** Position `row * 12 + column` of the table lies in row `row`, column
      `column`. */
  lemma RowColumn(row: nat, column: nat)
    requires column < 12
    ensures (row * 12 + column) / 12 == row && (row * 12 + column) % 12 == column
  {
  }

  /** Two candlesticks with the same value are the same member. */
  lemma ValueInjective(c: Candlestick, d: Candlestick)
    requires Value(c) == Value(d)
    ensures c == d
  {
  }

  /** Looking a chart name up in the table finds an entry of its duration. */
  lemma NameLookup(table: seq<ChartMember>, p: ProductCode, c: Candlestick)
    requires IsChartTable(table)
    ensures IndexOfName(table, ChartName(p, c)).Some?
    ensures table[IndexOfName(table, ChartName(p, c)).value].value == Value(c)
  {
    NameFound(table, p, c);
    var q, d := EntryAt(table, IndexOfName(table, ChartName(p, c)).value);
    ChartNameInjective(q, d, p, c);
  }

  /** Every chart name is in the table. */
  lemma NameFound(table: seq<ChartMember>, p: ProductCode, c: Candlestick)
    requires IsChartTable(table)
    ensures IndexOfName(table, ChartName(p, c)).Some?
  {
    EntryOf(table, ProductIndex(p), CandlestickIndex(c));
  }

  /** The entry for product `pi` and duration `ci` sits at `pi * 12 + ci`. */
  lemma EntryOf(table: seq<ChartMember>, pi: nat, ci: nat)
    requires IsChartTable(table) && pi < |ProductCodes| && ci < |Candlesticks|
    ensures pi * 12 + ci < |table| && table[pi * 12 + ci] == ChartEntry(ProductCodes[pi], Candlesticks[ci])
  {
    RowColumn(pi, ci);
  }

  /** The product and duration of the entry at position `i`. */
  lemma EntryAt(table: seq<ChartMember>, i: nat) returns (p: ProductCode, c: Candlestick)
    requires IsChartTable(table) && i < |table|
    ensures table[i] == ChartEntry(p, c)
  {
    p, c := ProductCodes[i / 12], Candlesticks[i % 12];
  }

  /** Looking a duration's value up in the table finds the BTC_JPY entry of
      that duration. */
  lemma ValueLookup(table: seq<ChartMember>, c: Candlestick)
    requires IsChartTable(table)
    ensures IndexOfValue(table, Value(c)).Some?
    ensures table[IndexOfValue(table, Value(c)).value] == ChartEntry(BtcJpy, c)
  {
    var ci := CandlestickIndex(c);
    RowColumn(0, ci);
    assert table[ci] == ChartEntry(ProductCodes[0], c);
    var j := IndexOfValue(table, Value(c)).value;
    RowColumn(0, j);
    assert table[j] == ChartEntry(BtcJpy, Candlesticks[j]);
    ValueInjective(Candlesticks[j], c);
  }

  /** In the ChartType enumeration every name `f'{p.name}_{c.name}'`
      resolves to the BTC_JPY member of duration `c`: members of later
      products repeat the values of the first product and are its aliases. */
  lemma ChartTypeAliases(table: seq<ChartMember>, p: ProductCode, c: Candlestick)
    requires IsChartTable(table)
    ensures ChartTypeOf(table, ChartName(p, c)) == Some(ChartEntry(BtcJpy, c))
  {
    NameLookup(table, p, c);
    ValueLookup(table, c);
  }
}
