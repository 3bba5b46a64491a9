/** The leaderboard of components/StudentSummary.tsx: the search box and the column sort over
    the rows of `studentTotals`, the "Top N" cut for the bar chart, the y-axis scale and the bar
    geometry, the table bar widths, and the two CSV exports. */
module Leaderboard {
  import opened Options
  import opened Text
  import opened Seqs
  import opened Durations
  import opened PieChart
  import opened Aggregation
  import opened Csv

  // Search and sort: `sortedAndFilteredTotals`, `requestSort`.

  /** The columns a header click sorts by. */
  datatype SortKey = ByName | ByLevel | ByTotal | ByAverage | ByCount

  datatype SortConfig = SortConfig(key: SortKey, ascending: bool)

  /** The table opens sorted by total time, most first. */
  const DefaultSort := SortConfig(ByTotal, false)

  /** `requestSort`: a click on the column already sorted ascending turns it descending; any
      other click sorts that column ascending. */
  function RequestSort(cfg: SortConfig, key: SortKey): (r: SortConfig)
    ensures r.key == key
    ensures r.ascending <==> !(cfg.key == key && cfg.ascending)
  {
    if cfg.key == key && cfg.ascending then SortConfig(key, false) else SortConfig(key, true)
  }

  /** Clicking one column again and again alternates between ascending and descending. */
  lemma RequestSortAlternates(cfg: SortConfig, key: SortKey)
    ensures var once := RequestSort(cfg, key);
      RequestSort(once, key) == SortConfig(key, !once.ascending)
      && RequestSort(RequestSort(once, key), key) == once
  {
  }

  /** The value a row holds in a column: a number or a string. */
  datatype KeyValue = Num(x: real) | Word(w: string)

  function KeyOf(key: SortKey, t: StudentTotal): KeyValue
  {
    match key
    case ByName => Word(t.studentName)
    case ByLevel => Num(t.level as real)
    case ByTotal => Num(t.totalSeconds as real)
    case ByAverage => Num(t.averageSeconds)
    case ByCount => Num(t.sessionCount as real)
  }

  /** JavaScript's `<` on two values of one column. */
  predicate Less(a: KeyValue, b: KeyValue)
  {
    match (a, b)
    case (Num(x), Num(y)) => x < y
    case (Word(v), Word(w)) => LexLess(v, w)
    case _ => false
  }

  /** The comparator of `sortedAndFilteredTotals`: by the column in the chosen direction, then by
      name ascending whatever the direction. */
  function Compare(cfg: SortConfig, a: StudentTotal, b: StudentTotal): int
  {
    var ka, kb := KeyOf(cfg.key, a), KeyOf(cfg.key, b);
    if Less(ka, kb) then (if cfg.ascending then -1 else 1)
    else if Less(kb, ka) then (if cfg.ascending then 1 else -1)
    else if LexLess(a.studentName, b.studentName) then -1
    else if LexLess(b.studentName, a.studentName) then 1
    else 0
  }

  /** The comparator read as "may precede", as a stable sort reads it. */
  function Le(cfg: SortConfig): (StudentTotal, StudentTotal) -> bool
  {
    (a: StudentTotal, b: StudentTotal) => Compare(cfg, a, b) <= 0
  }

  /** The intended order, stated without the comparator: a row comes first when its value is
      smaller (ascending) or larger (descending); equal values go by name, A before B. */
  predicate InOrder(cfg: SortConfig, a: StudentTotal, b: StudentTotal)
  {
    var ka, kb := KeyOf(cfg.key, a), KeyOf(cfg.key, b);
    if ka == kb then !LexLess(b.studentName, a.studentName)
    else if cfg.ascending then Less(ka, kb)
    else Less(kb, ka)
  }

  lemma LessIrreflexive(k: KeyValue)
    ensures !Less(k, k)
  {
    if k.Word? { LexLessIrreflexive(k.w); }
  }

  /** Two values of one column are equal or one is smaller. */
  lemma LessTotal(key: SortKey, a: StudentTotal, b: StudentTotal)
    ensures var ka, kb := KeyOf(key, a), KeyOf(key, b);
      ka == kb || Less(ka, kb) || Less(kb, ka)
  {
    if key == ByName { LexLessTotal(a.studentName, b.studentName); }
  }

  lemma LessTransitive(a: KeyValue, b: KeyValue, c: KeyValue)
    requires Less(a, b) && Less(b, c)
    ensures Less(a, c)
  {
    if a.Word? { LexLessTransitive(a.w, b.w, c.w); }
  }

  lemma LessAsymmetric(a: KeyValue, b: KeyValue)
    requires Less(a, b)
    ensures !Less(b, a)
  {
    if a.Word? { LexLessAsymmetric(a.w, b.w); }
  }

  /** The comparator says "may precede" exactly when the rows are in the intended order. */
  lemma CompareMeaning(cfg: SortConfig, a: StudentTotal, b: StudentTotal)
    ensures Compare(cfg, a, b) <= 0 <==> InOrder(cfg, a, b)
  {
    var ka, kb := KeyOf(cfg.key, a), KeyOf(cfg.key, b);
    LessTotal(cfg.key, a, b);
    LessIrreflexive(ka);
    if Less(ka, kb) { LessAsymmetric(ka, kb); }
    if LexLess(a.studentName, b.studentName) {
      LexLessAsymmetric(a.studentName, b.studentName);
    }
  }

  /** The comparator is antisymmetric: swapping the rows flips its sign. */
  lemma CompareAntisymmetric(cfg: SortConfig, a: StudentTotal, b: StudentTotal)
    ensures Compare(cfg, a, b) == -Compare(cfg, b, a)
  {
    var ka, kb := KeyOf(cfg.key, a), KeyOf(cfg.key, b);
    if Less(ka, kb) { LessAsymmetric(ka, kb); }
    if LexLess(a.studentName, b.studentName) { LexLessAsymmetric(a.studentName, b.studentName); }
  }

  lemma InOrderTransitive(cfg: SortConfig, a: StudentTotal, b: StudentTotal, c: StudentTotal)
    requires InOrder(cfg, a, b) && InOrder(cfg, b, c)
    ensures InOrder(cfg, a, c)
  {
    var ka, kb, kc := KeyOf(cfg.key, a), KeyOf(cfg.key, b), KeyOf(cfg.key, c);
    if ka == kb && kb == kc {
      NotLexLessTransitive(a.studentName, b.studentName, c.studentName);
    } else if cfg.ascending {
      if ka != kb && kb != kc { LessTransitive(ka, kb, kc); }
      if ka == kc { LessAsymmetric(ka, kb); }
    } else {
      if ka != kb && kb != kc { LessTransitive(kc, kb, ka); }
      if ka == kc { LessAsymmetric(kb, ka); }
    }
  }

  /** Whatever the column and direction, the comparator is a total preorder, so the sort is
      well defined. */
  lemma LeIsTotalPreorder(cfg: SortConfig)
    ensures TotalPreorder(Le(cfg))
  {
    forall a, b ensures Le(cfg)(a, b) || Le(cfg)(b, a) {
      CompareAntisymmetric(cfg, a, b);
    }
    forall a, b, c | Le(cfg)(a, b) && Le(cfg)(b, c) ensures Le(cfg)(a, c) {
      CompareMeaning(cfg, a, b);
      CompareMeaning(cfg, b, c);
      InOrderTransitive(cfg, a, b, c);
      CompareMeaning(cfg, a, c);
    }
  }

  /** `student.studentName.toLowerCase().includes(searchQuery.toLowerCase())`. */
  function Matches(query: string): StudentTotal -> bool
  {
    (t: StudentTotal) => Contains(ToLower(t.studentName), ToLower(query))
  }

  /** `sortedAndFilteredTotals`. */
  function SortedAndFiltered(totals: seq<StudentTotal>, cfg: SortConfig, query: string)
    : seq<StudentTotal>
  {
    Sort(Filter(totals, Matches(query)), Le(cfg))
  }

  /** The rows shown are exactly the rows whose name contains the query, ignoring case, each as
      often as it occurs, in the intended order. */
  lemma SortedAndFilteredExact(totals: seq<StudentTotal>, cfg: SortConfig, query: string)
    ensures var r := SortedAndFiltered(totals, cfg, query);
      && multiset(r) == multiset(Filter(totals, Matches(query)))
      && (forall t :: t in r <==> t in totals && Contains(ToLower(t.studentName), ToLower(query)))
      && (forall i, j :: 0 <= i < j < |r| ==> InOrder(cfg, r[i], r[j]))
  {
    var r := SortedAndFiltered(totals, cfg, query);
    LeIsTotalPreorder(cfg);
    SortSorted(Filter(totals, Matches(query)), Le(cfg));
    forall i, j | 0 <= i < j < |r| ensures InOrder(cfg, r[i], r[j]) {
      CompareMeaning(cfg, r[i], r[j]);
    }
    forall t ensures t in r <==> t in Filter(totals, Matches(query)) {
      assert t in r <==> t in multiset(r);
    }
  }

  /** An empty search shows every row. */
  lemma EmptySearchShowsAll(totals: seq<StudentTotal>, cfg: SortConfig)
    ensures multiset(SortedAndFiltered(totals, cfg, "")) == multiset(totals)
  {
    forall i | 0 <= i < |totals| ensures Matches("")(totals[i]) {
      ContainsEmpty(ToLower(totals[i].studentName));
    }
    FilterAllPass(totals, Matches(""));
  }

  // The "Top N" cut: `chartData`.

  /** The display choices Top 5, Top 10, Top 20 and All (`None`, for `Infinity`); Top 5 is the
      initial choice. */
  const DisplayChoices: seq<Option<nat>> := [Some(5), Some(10), Some(20), None]
  const DefaultLimit: Option<nat> := Some(5)

  /** `slice(0, displayLimit === Infinity ? undefined : displayLimit)`. */
  function ChartData(rows: seq<StudentTotal>, limit: Option<nat>): (r: seq<StudentTotal>)
    ensures r <= rows
    ensures limit.None? ==> r == rows
    ensures limit.Some? ==> |r| == (if limit.value < |rows| then limit.value else |rows|)
  {
    if limit.None? || limit.value >= |rows| then rows else rows[..limit.value]
  }

  // The y axis of the bar chart: `yAxisConfig`.

  /** `Math.ceil(a / b)` for a non-negative `a`. */
  function CeilDiv(a: nat, b: nat): (q: nat)
    requires b > 0
    ensures q * b >= a && (q - 1) * b < a
  {
    (a + b - 1) / b
  }

  /** `Math.max(...chartData.map(s => s.totalSeconds), 0)`. */
  function ChartMax(chart: seq<StudentTotal>): (m: nat)
    ensures forall i :: 0 <= i < |chart| ==> chart[i].totalSeconds <= m
    ensures m == 0 || exists i :: 0 <= i < |chart| && chart[i].totalSeconds == m
  {
    if chart == [] then 0
    else
      var rest := ChartMax(chart[1..]);
      if chart[0].totalSeconds > rest then chart[0].totalSeconds else rest
  }

  /** The top of the scale: the next whole hour, or below 15 minutes the next whole minute, and
      never zero. */
  function AxisMax(maxVal: nat): int
  {
    var hour := CeilDiv(maxVal, 3600) * 3600;
    var atLeastHour := if maxVal > 0 && hour == 0 then 3600 else hour;
    var fine := if maxVal < 900 then CeilDiv(maxVal, 60) * 60 else atLeastHour;
    if fine == 0 then 60 else fine
  }

  /** The scale covers the largest bar, is a whole number of minutes, and overshoots by less than
      the unit it rounds to. */
  lemma AxisMaxBounds(maxVal: nat)
    ensures var m := AxisMax(maxVal);
      && m > 0 && m >= maxVal && m % 60 == 0
      && (maxVal >= 900 ==> m % 3600 == 0 && m < maxVal + 3600)
      && (0 < maxVal < 900 ==> m < maxVal + 60)
      && (maxVal == 0 ==> m == 60)
  {
    if 0 < maxVal < 900 {
      DivModOf(CeilDiv(maxVal, 60), 0, 60);
    } else if maxVal >= 900 {
      var q := CeilDiv(maxVal, 3600);
      DivModOf(q, 0, 3600);
      assert q * 3600 == (q * 60) * 60;
      DivModOf(q * 60, 0, 60);
    }
  }

  /** One labelled tick of the axis. */
  datatype Tick = Tick(value: int, caption: string)

  datatype AxisConfig = AxisConfig(max: int, ticks: seq<Tick>)

  /** The five ticks `(max / 4) * i`, top first, each labelled with its short duration. The
      quarter is taken with integer division, which equals the source's real `max / 4` only
      when `max` is a multiple of 4; every scale `AxisMax` yields is a multiple of 60, so the
      ticks shown are exact (`AxisTicksExact`). */
  function AxisTicks(max: int): seq<Tick>
  {
    seq(5, i requires 0 <= i < 5 => var v := max / 4 * (4 - i); Tick(v, FormatDuration(v)))
  }

  /** For a scale that is a whole number of minutes the quarters are whole, so the ticks are
      exact: top of the scale first, zero last, four equal steps. */
  lemma AxisTicksExact(max: int)
    requires max % 60 == 0
    ensures var ts := AxisTicks(max);
      && |ts| == 5 && ts[0].value == max && ts[4].value == 0
      && (forall i :: 0 <= i < 5 ==> ts[i].value * 4 == max * (4 - i))
      && (forall i :: 0 <= i < 5 ==> ts[i].caption == FormatDuration(ts[i].value))
  {
    var q := max / 4;
    assert max == 4 * q;
    var ts := AxisTicks(max);
    forall i | 0 <= i < 5 ensures ts[i].value * 4 == max * (4 - i) {
      assert ts[i].value == q * (4 - i);
    }
  }

  /** `yAxisConfig`: one hour and no ticks for an empty chart. */
  function YAxisConfig(chart: seq<StudentTotal>): AxisConfig
  {
    if chart == [] then AxisConfig(3600, [])
    else var m := AxisMax(ChartMax(chart)); AxisConfig(m, AxisTicks(m))
  }

  /** The scale is positive and no bar is taller than it; the ticks run from the top of the scale
      down to zero in four equal steps, exactly (the top is a multiple of 60, so a quarter of it
      is whole), each labelled with its duration. */
  lemma YAxisConfigExact(chart: seq<StudentTotal>)
    ensures var a := YAxisConfig(chart);
      && a.max > 0
      && (forall i :: 0 <= i < |chart| ==> chart[i].totalSeconds <= a.max)
      && (a.ticks == [] <==> chart == [])
      && (chart != [] ==> |a.ticks| == 5 && a.ticks[0].value == a.max && a.ticks[4].value == 0)
      && (forall i :: 0 <= i < |a.ticks| ==>
            a.ticks[i].value * 4 == a.max * (4 - i) && a.ticks[i].caption == FormatDuration(a.ticks[i].value))
  {
    if chart != [] {
      AxisMaxBounds(ChartMax(chart));
      AxisTicksExact(AxisMax(ChartMax(chart)));
    }
  }

  // Bar chart geometry.

  const ViewboxHeight := 400
  const MarginTop := 20
  const MarginRight := 20
  const MarginBottom := 120
  const MarginLeft := 60

  /** `Math.max(800, chartData.length * 60)`. */
  function ViewboxWidth(bars: nat): int
  {
    if 800 >= bars * 60 then 800 else bars * 60
  }

  function InnerWidth(bars: nat): (w: int)
    ensures w >= 720
  {
    ViewboxWidth(bars) - MarginLeft - MarginRight
  }

  const InnerHeight := ViewboxHeight - MarginTop - MarginBottom

  /** `(totalSeconds / yAxisConfig.max) * barChartInnerHeight`. */
  function BarHeight(total: int, axisMax: int): real
    requires axisMax > 0
  {
    total as real / axisMax as real * InnerHeight as real
  }

  /** The top edge of a bar: bars stand on the x axis at y = 280. */
  function BarTop(total: int, axisMax: int): real
    requires axisMax > 0
  {
    (MarginTop + InnerHeight) as real - BarHeight(total, axisMax)
  }

  /** A bar no taller than the scale stays inside the plot: it stands on the axis and reaches at
      most the top margin. */
  lemma BarInsidePlot(total: int, axisMax: int)
    requires 0 <= total <= axisMax && axisMax > 0
    ensures 0.0 <= BarHeight(total, axisMax) <= 260.0
    ensures 20.0 <= BarTop(total, axisMax) <= 280.0
    ensures BarTop(total, axisMax) + BarHeight(total, axisMax) == 280.0
  {
    var q := total as real / axisMax as real;
    assert q * axisMax as real == total as real;
    assert 0.0 <= q <= 1.0;
  }

  /** The slot width `barChartInnerWidth / chartData.length`. */
  function Slot(bars: nat): real
    requires bars > 0
  {
    InnerWidth(bars) as real / bars as real
  }

  /** `BAR_CHART_MARGIN.left + slot * (index + 0.1)`. */
  function BarX(index: nat, bars: nat): real
    requires bars > 0
  {
    MarginLeft as real + Slot(bars) * (index as real + 0.1)
  }

  /** `slot * 0.8`. */
  function BarWidth(bars: nat): real
    requires bars > 0
  {
    Slot(bars) * 0.8
  }

  /** The arithmetic of neighbouring bars in slots of width `u`: a bar starting at `start` slots
      is 0.8 slots wide, the next starts one slot later, and `n` slots make the width `w`. */
  lemma SlotArithmetic(u: real, start: real, next: real, n: real, w: real)
    requires u > 0.0 && start > 0.0 && start + 0.9 <= n && next == start + 1.0 && u * n == w
    ensures u * start > 0.0
    ensures u * start + u * 0.8 < u * next
    ensures u * start + u * 0.8 < w
  {
    var stop := start + 0.8;
    assert u * stop == u * start + u * 0.8;
    assert u * next - u * stop == u * 0.2;
    assert u * n - u * stop == u * (n - stop);
    assert u * (n - stop) > 0.0;
  }

  /** The slots fill the plot. */
  lemma SlotTimesBars(bars: nat)
    requires bars > 0
    ensures Slot(bars) > 0.0 && Slot(bars) * bars as real == InnerWidth(bars) as real
  {
  }

  /** Bars start right of the y axis, leave a gap between neighbours and end inside the plot. */
  lemma BarsApart(index: nat, bars: nat)
    requires index < bars
    ensures BarX(index, bars) > MarginLeft as real
    ensures index + 1 < bars ==> BarX(index, bars) + BarWidth(bars) < BarX(index + 1, bars)
    ensures BarX(index, bars) + BarWidth(bars) < (MarginLeft + InnerWidth(bars)) as real
  {
    SlotTimesBars(bars);
    SlotArithmetic(Slot(bars), index as real + 0.1, (index + 1) as real + 0.1, bars as real,
      InnerWidth(bars) as real);
  }

  const BarPalette: seq<string> := ["#6366f1", "#14b8a6", "#f43f5e", "#0ea5e9", "#f59e0b",
    "#84cc16", "#8b5cf6", "#06b6d4", "#d946ef"]

  // The bars of the table view.

  /** `(student.totalSeconds / maxTotalSeconds) * 100` percent; `None` stands for the NaN of
      0 / 0 and the infinity of a non-zero total over 0. */
  function TableBarWidth(total: int, maxTotal: int): Option<real>
  {
    if maxTotal == 0 then None else Some(total as real / maxTotal as real * 100.0)
  }

  /** As written, `maxTotalSeconds` guards only the empty table: when every total is zero (every
      session signed out within its first second) it is 0 and every bar width is NaN. */
  lemma ZeroTotalsGiveNoWidth()
    ensures var rows := [StudentTotal("Ann", 100, 0, 1, 0.0)];
      MaxTotalSeconds(rows) == 0 && TableBarWidth(rows[0].totalSeconds, MaxTotalSeconds(rows)).None?
  {
  }

  /** The divisor with the guard the comment asks for: at least 1. */
  function SafeMaxTotalSeconds(totals: seq<StudentTotal>): (m: int)
    ensures m >= 1
    ensures forall i :: 0 <= i < |totals| ==> totals[i].totalSeconds <= m
    ensures m == 1 || exists i :: 0 <= i < |totals| && totals[i].totalSeconds == m
  {
    var m := MaxTotalSeconds(totals);
    if m <= 0 then 1 else m
  }

  /** With the guarded divisor every row with a non-negative total gets a width between 0 and
      100 percent, and a row with the largest positive total gets exactly 100. */
  lemma TableBarWidthsFit(totals: seq<StudentTotal>, i: nat)
    requires i < |totals| && totals[i].totalSeconds >= 0
    ensures var w := TableBarWidth(totals[i].totalSeconds, SafeMaxTotalSeconds(totals));
      && w.Some? && 0.0 <= w.value <= 100.0
      && (totals[i].totalSeconds == SafeMaxTotalSeconds(totals) ==> w.value == 100.0)
  {
    var t, m := totals[i].totalSeconds as real, SafeMaxTotalSeconds(totals) as real;
    var q := t / m;
    assert q * m == t;
    assert 0.0 <= q <= 1.0;
  }

  // The table export: `handleExportTableCSV`.

  /** JavaScript's `t % m` for a non-negative `t`: `t - m * Math.trunc(t / m)`. */
  function RealRem(t: real, m: real): real
    requires t >= 0.0 && m > 0.0
  {
    t - m * ((t / m).Floor as real)
  }

  /** `formatSecondsToHHMMSS` of a number that may have a fraction, as an average does: clamp at
      zero, then `Math.floor` of the hours, minutes and seconds. */
  function ClockOfSeconds(t: real): string
  {
    var c := if t < 0.0 then 0.0 else t;
    ClockText(RealFields(c))
  }

  lemma FloorDiv(c: real, m: int)
    requires c >= 0.0 && m > 0
    ensures (c / m as real).Floor == c.Floor / m
  {
    var n := c.Floor;
    var q := n / m;
    var u := c / m as real;
    assert u * m as real == c;
    assert (q * m) as real <= c < (q * m + m) as real;
    assert q as real * m as real <= u * m as real;
    assert u * m as real < (q + 1) as real * m as real;
  }

  lemma FloorShift(c: real, k: int)
    ensures (c - k as real).Floor == c.Floor - k
  {
  }

  /** The three fields of the clock, as JavaScript computes them from a non-negative number. */
  function RealFields(c: real): Duration
    requires c >= 0.0
  {
    Duration((c / 3600.0).Floor, (RealRem(c, 3600.0) / 60.0).Floor, RealRem(c, 60.0).Floor)
  }

  lemma MinutesField(c: real)
    requires c >= 0.0
    ensures (RealRem(c, 3600.0) / 60.0).Floor == JsRem(c.Floor, 3600) / 60
  {
    FloorDiv(c, 3600);
    var h := (c / 3600.0).Floor;
    var r := RealRem(c, 3600.0);
    assert r == c - (h * 3600) as real;
    FloorShift(c, h * 3600);
    FloorDiv(r, 60);
  }

  lemma SecondsField(c: real)
    requires c >= 0.0
    ensures RealRem(c, 60.0).Floor == JsRem(c.Floor, 60)
  {
    FloorDiv(c, 60);
    var k := (c / 60.0).Floor;
    assert RealRem(c, 60.0) == c - (k * 60) as real;
    FloorShift(c, k * 60);
  }

  /** Flooring each field of a non-negative number splits its whole part. */
  lemma RealFieldsWhole(c: real)
    requires c >= 0.0
    ensures RealFields(c) == Decompose(c.Floor)
  {
    FloorDiv(c, 3600);
    MinutesField(c);
    SecondsField(c);
  }

  /** On the clock, a fractional number of seconds shows as its whole part: the clock text is
      that of `Math.floor` of the clamped value. */
  lemma ClockOfSecondsWhole(t: real)
    ensures ClockOfSeconds(t) == SecondsToClock(if t < 0.0 then 0 else t.Floor)
  {
    var c := if t < 0.0 then 0.0 else t;
    RealFieldsWhole(c);
    assert ClockOfSeconds(t) == ClockText(RealFields(c));
  }

  const TableHeader := "Student Name,Level,Session Count,Average Session Time (HH:MM:SS),Total Time Spent (HH:MM:SS)"

  /** The five fields of a row of the table export. */
  function RowFields(t: StudentTotal): seq<string>
  {
    [EscapeCsv(Some(t.studentName)), IntToString(t.level), IntToString(t.sessionCount),
     ClockOfSeconds(t.averageSeconds), ClockOfSeconds(t.totalSeconds as real)]
  }

  function RowLines(rows: seq<StudentTotal>): seq<string>
  {
    seq(|rows|, i requires 0 <= i < |rows| => Join(RowFields(rows[i]), ","))
  }

  /** The table export: nothing ("No data to export.") for no rows, otherwise the header line and
      one line per row, joined with line breaks. */
  function TableCsv(rows: seq<StudentTotal>): Option<string>
  {
    if rows == [] then None else Some(Join([TableHeader] + RowLines(rows), "\n"))
  }

  /** A row's fields read back as its name and as the clock texts of its whole average and
      whole total, clamped at zero. */
  lemma RowFieldsReadBack(t: StudentTotal)
    ensures var f := RowFields(t);
      && |f| == 5
      && ReadField(f[0]) == t.studentName
      && f[3] == SecondsToClock(if t.averageSeconds < 0.0 then 0 else t.averageSeconds.Floor)
      && f[4] == SecondsToClock(t.totalSeconds)
  {
    EscapeCsvRoundTrip(t.studentName);
    ClockOfSecondsWhole(t.averageSeconds);
    ClockOfSecondsWhole(t.totalSeconds as real);
  }

  /** Nothing to export for no rows; otherwise the header line, then the rows' lines. */
  lemma TableCsvShape(rows: seq<StudentTotal>)
    ensures TableCsv(rows).None? <==> rows == []
    ensures rows != [] ==> TableCsv(rows).value == TableHeader + "\n" + Join(RowLines(rows), "\n")
  {
    if rows != [] { JoinCons(TableHeader, RowLines(rows), "\n"); }
  }

  // The chart-data export: `handleExportChartDataCSV`.

  /** The view on screen; a pie shows rows per level or time per name. */
  datatype View = TableView | BarView | PieView(byName: bool)

  /** The outcome of an export: "No data to export.", a `TypeError` thrown, or a file. */
  datatype ChartExport = NoData | Crashed | Exported(content: string)

  const ChartHeader := "Label,Value (Formatted),Value (Raw Seconds/Count)"

  /** One line: the label and the formatted value in quotes (not escaped), then the raw value.
      Values in seconds are formatted as short durations, counts as plain numbers. */
  function SliceLine(s: Slice, inSeconds: bool): string
  {
    Join(["\"" + s.caption + "\"",
          "\"" + (if inSeconds then FormatDuration(s.value) else IntToString(s.value)) + "\"",
          IntToString(s.value)], ",")
  }

  function ExportSlices(data: seq<Slice>, inSeconds: bool): ChartExport
  {
    if data == [] then NoData
    else Exported(Join([ChartHeader] + seq(|data|, i requires 0 <= i < |data| => SliceLine(data[i], inSeconds)), "\n"))
  }

  /** What the export menu offers: the table view exports its own CSV and a picture of the
      table; the bar and pie views a picture of the chart in three formats and the chart data. */
  datatype ExportAction = TableCsvExport | TableImageExport | ChartImageExport(format: string)
    | ChartDataExport

  /** `getExportOptions`. */
  function ExportOptions(view: View): (r: seq<ExportAction>)
    ensures ChartDataExport in r <==> !view.TableView?
    ensures TableCsvExport in r <==> view.TableView?
  {
    if view.TableView? then [TableCsvExport, TableImageExport]
    else [ChartImageExport("png"), ChartImageExport("jpeg"), ChartImageExport("svg"), ChartDataExport]
  }

  /** As written: in the bar view the rows of `chartData` are leaderboard rows, which have no
      `label` and no `value`, so `item.value.toString()` throws. The table view never offers
      this export (`ExportOptions`). */
  function ChartDataCsvAsWritten(view: View, levelPie: seq<Slice>, namePie: seq<Slice>,
      chart: seq<StudentTotal>): ChartExport
  {
    match view
    case PieView(byName) => ExportSlices(if byName then namePie else levelPie, byName)
    case _ => if chart == [] then NoData else Crashed
  }

  /** In the bar view the export always fails once there is a row to export. */
  lemma BarExportCrashes(view: View, levelPie: seq<Slice>, namePie: seq<Slice>,
      chart: seq<StudentTotal>)
    requires view == BarView && chart != []
    ensures ChartDataCsvAsWritten(view, levelPie, namePie, chart) == Crashed
  {
  }

  /** A bar as a labelled value: the student's name and total seconds. */
  function BarSlice(t: StudentTotal): Slice
  {
    Slice(t.studentName, t.totalSeconds, BarPalette[0])
  }

  /** The export with the bar rows labelled by name and valued by total seconds. */
  function ChartDataCsv(view: View, levelPie: seq<Slice>, namePie: seq<Slice>,
      chart: seq<StudentTotal>): ChartExport
  {
    match view
    case PieView(byName) => ExportSlices(if byName then namePie else levelPie, byName)
    case _ => ExportSlices(seq(|chart|, i requires 0 <= i < |chart| => BarSlice(chart[i])), true)
  }

  function BarLines(chart: seq<StudentTotal>): seq<string>
  {
    seq(|chart|, i requires 0 <= i < |chart| => SliceLine(BarSlice(chart[i]), true))
  }

  /** The corrected export never throws, reports no data exactly when the view shows none, and
      keeps the pie exports as they were. */
  lemma ChartDataCsvOutcome(view: View, levelPie: seq<Slice>, namePie: seq<Slice>,
      chart: seq<StudentTotal>)
    ensures var e := ChartDataCsv(view, levelPie, namePie, chart);
      && e != Crashed
      && (e == NoData <==> (if view.PieView? then (if view.byName then namePie else levelPie) == []
                            else chart == []))
      && (view.PieView? ==> e == ChartDataCsvAsWritten(view, levelPie, namePie, chart))
  {
  }

  /** In the bar view the corrected export writes the header, then one line per bar with the
      student's name and total time. */
  lemma ChartDataCsvBars(view: View, levelPie: seq<Slice>, namePie: seq<Slice>,
      chart: seq<StudentTotal>)
    requires view == BarView && chart != []
    ensures ChartDataCsv(view, levelPie, namePie, chart)
      == Exported(ChartHeader + "\n" + Join(BarLines(chart), "\n"))
  {
    var data := seq(|chart|, i requires 0 <= i < |chart| => BarSlice(chart[i]));
    assert seq(|data|, i requires 0 <= i < |data| => SliceLine(data[i], true)) == BarLines(chart);
    JoinCons(ChartHeader, BarLines(chart), "\n");
  }
}
