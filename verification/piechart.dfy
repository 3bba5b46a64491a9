/** The pie chart of components/PieChart.tsx: the empty-data guard, the slice angles threaded
    through a running start angle, the SVG arc description of each slice, the legend labels
    and the height of the drawing. Angles are exact reals; the points on the circle
    (`polarToCartesian`, which needs cos and sin) stay symbolic. */
module PieChart {
  import opened Options
  import opened Seqs

  /** One entry of the chart's `data`; `caption` is its `label`. */
  datatype Slice = Slice(caption: string, value: int, color: string)

  function SliceValue(s: Slice): int
  {
    s.value
  }

  /** `data.reduce((sum, item) => sum + item.value, 0)`. */
  function Total(data: seq<Slice>): int
  {
    Sum(data, SliceValue)
  }

  /** `polarToCartesian(cx, cy, radius, angle)`, kept as the four numbers it is computed from. */
  datatype Point = Polar(cx: real, cy: real, radius: real, angle: real)

  /** The path `M <move-to> A r r 0 <large-arc> 0 <arc-to> L cx cy Z` of `describeArc`, with the
      elliptical-arc command of section 8.3.8 of SVG 1.1 (rotation 0, sweep flag 0). */
  datatype ArcPath = ArcPath(moveTo: Point, radius: real, largeArc: bool, arcTo: Point,
    centerX: real, centerY: real)

  function ArcSteps(start: real, end: real): nat
  {
    if end - start >= 360.0 then ((end - start - 360.0) * 100.0).Floor + 1 else 0
  }

  /** `describeArc`: a span of at least a full turn is redrawn with its end 0.01 degree earlier,
      until it is below a full turn. A span of minus a full turn or less makes the source call
      itself with ever larger spans and never return: that case is `None`. */
  function DescribeArc(cx: real, cy: real, r: real, start: real, end: real): (p: Option<ArcPath>)
    decreases ArcSteps(start, end)
  {
    if end - start >= 360.0 then DescribeArc(cx, cy, r, start, end - 0.01)
    else if end - start <= -360.0 then None
    else Some(ArcPath(Polar(cx, cy, r, end), r, !(end - start <= 180.0), Polar(cx, cy, r, start),
      cx, cy))
  }

  /** Below a full turn in either direction the path moves to the point of the END angle, draws
      the arc to the point of the START angle, and sets the large-arc flag exactly when the span
      exceeds 180 degrees. */
  lemma DescribeArcShape(cx: real, cy: real, r: real, start: real, end: real)
    requires -360.0 < end - start < 360.0
    ensures var p := DescribeArc(cx, cy, r, start, end);
      && p.Some? && p.value.moveTo == Polar(cx, cy, r, end) && p.value.arcTo == Polar(cx, cy, r, start)
      && p.value.radius == r && p.value.centerX == cx && p.value.centerY == cy
      && (p.value.largeArc <==> end - start > 180.0)
  {
  }

  /** A full turn or more is drawn as an arc just short of a full turn: never a zero-length arc. */
  lemma {:induction false} DescribeArcFullTurn(cx: real, cy: real, r: real, start: real, end: real)
    requires end - start >= 360.0
    ensures var p := DescribeArc(cx, cy, r, start, end);
      && p.Some? && p.value.arcTo == Polar(cx, cy, r, start) && p.value.largeArc
      && p.value.moveTo.angle <= end
      && 359.99 <= p.value.moveTo.angle - start < 360.0
    decreases ArcSteps(start, end)
  {
    if end - 0.01 - start >= 360.0 {
      DescribeArcFullTurn(cx, cy, r, start, end - 0.01);
    } else {
      DescribeArcShape(cx, cy, r, start, end - 0.01);
    }
  }

  /** A single slice that holds the whole total spans exactly 360 degrees and is redrawn once,
      ending at 359.99 degrees. */
  lemma DescribeArcExactTurn(cx: real, cy: real, r: real)
    ensures DescribeArc(cx, cy, r, 0.0, 360.0) ==
      Some(ArcPath(Polar(cx, cy, r, 359.99), r, true, Polar(cx, cy, r, 0.0), cx, cy))
  {
    DescribeArcShape(cx, cy, r, 0.0, 359.99);
  }

  /** A span of minus a full turn or less never yields a path. */
  lemma DescribeArcNegativeTurn(cx: real, cy: real, r: real, start: real, end: real)
    requires end - start <= -360.0
    ensures DescribeArc(cx, cy, r, start, end).None?
  {
  }

  /** A drawn slice: the entry's fields, its path and the angles it spans. */
  datatype DrawnSlice = DrawnSlice(color: string, path: Option<ArcPath>, caption: string,
    value: int, startAngle: real, endAngle: real)

  /** The sum of the first `i` values. */
  function Prefix(data: seq<Slice>, i: nat): int
    requires i <= |data|
  {
    Total(data[..i])
  }

  /** Where slice `i` starts: its share of the turn before it, `360 * prefix / total`, for a
      positive total. A total that is not positive gives every slice a zero angle, so every
      slice starts at 0. */
  function Angle(data: seq<Slice>, i: nat): real
    requires i <= |data|
  {
    if Total(data) > 0 then 360.0 * (Prefix(data, i) as real) / (Total(data) as real) else 0.0
  }

  lemma PrefixStep(data: seq<Slice>, i: nat)
    requires i < |data|
    ensures Prefix(data, i + 1) == Prefix(data, i) + data[i].value
  {
    assert data[..i + 1] == data[..i] + [data[i]];
    SumAppend(data[..i], [data[i]], SliceValue);
  }

  /** Adding `(value / total) * 360` to the start of a slice gives the start of the next. */
  lemma AngleStep(p: int, v: int, t: int)
    requires t != 0
    ensures 360.0 * (p as real) / (t as real) + (v as real) / (t as real) * 360.0
      == 360.0 * ((p + v) as real) / (t as real)
  {
    var q := 1.0 / (t as real);
    assert 360.0 * (p as real) / (t as real) == 360.0 * (p as real) * q;
    assert (v as real) / (t as real) == (v as real) * q;
    assert 360.0 * ((p + v) as real) / (t as real) == 360.0 * ((p + v) as real) * q;
  }

  /** Slice `i` of `data` as drawn: the entry's fields, the angles before and after its share
      of the turn, and the arc between them. */
  ghost predicate DrawnAs(s: DrawnSlice, data: seq<Slice>, i: nat, cx: real, cy: real, r: real)
    requires i < |data|
  {
    && s.caption == data[i].caption && s.value == data[i].value && s.color == data[i].color
    && s.startAngle == Angle(data, i) && s.endAngle == Angle(data, i + 1)
    && s.path == DescribeArc(cx, cy, r, s.startAngle, s.endAngle)
  }

  /** The slice layout of PieChart.tsx: "not enough data" (`None`) when the values sum to zero,
      otherwise one slice per entry, in order, each starting where the previous one ended. */
  method LayoutSlices(data: seq<Slice>, cx: real, cy: real, r: real)
    returns (slices: Option<seq<DrawnSlice>>)
    ensures slices.None? <==> Total(data) == 0
    ensures slices.Some? ==> |slices.value| == |data|
    ensures slices.Some? ==> forall i :: 0 <= i < |data| ==> DrawnAs(slices.value[i], data, i, cx, cy, r)
  {
    var total := Total(data);
    if total == 0 {
      return None;
    }
    var startAngle := 0.0;
    var drawn: seq<DrawnSlice> := [];
    var i := 0;
    assert data[..0] == [];
    while i < |data|
      invariant 0 <= i <= |data|
      invariant |drawn| == i
      invariant startAngle == Angle(data, i)
      invariant forall j :: 0 <= j < i ==> DrawnAs(drawn[j], data, j, cx, cy, r)
    {
      var item := data[i];
      var angle := if total > 0 then (item.value as real) / (total as real) * 360.0 else 0.0;
      var endAngle := startAngle + angle;
      if total > 0 {
        PrefixStep(data, i);
        AngleStep(Prefix(data, i), item.value, total);
      }
      assert endAngle == Angle(data, i + 1);
      var path := DescribeArc(cx, cy, r, startAngle, endAngle);
      drawn := drawn + [DrawnSlice(item.color, path, item.caption, item.value, startAngle, endAngle)];
      startAngle := endAngle;
      i := i + 1;
    }
    slices := Some(drawn);
  }

  /** With exact arithmetic the first slice starts at 0, and for a positive total the last one
      ends at a full turn. A negative total leaves the last one ending at 0 as well. */
  lemma AnglesCoverTurn(data: seq<Slice>)
    ensures Angle(data, 0) == 0.0
    ensures Angle(data, |data|) == if Total(data) > 0 then 360.0 else 0.0
  {
    assert data[..0] == [] && data[..|data|] == data;
    if Total(data) > 0 {
      var t := Total(data) as real;
      assert 360.0 * t / t == 360.0 * (t / t);
      assert t / t == 1.0;
    }
  }

  /** With a negative total every slice spans 0 to 0 and is drawn as an empty arc at the top
      of the circle: nothing shows, and no slice is left without a path. */
  lemma NegativeTotalDrawsEmptySlices(s: DrawnSlice, data: seq<Slice>, i: nat, cx: real, cy: real,
      r: real)
    requires i < |data| && Total(data) < 0 && DrawnAs(s, data, i, cx, cy, r)
    ensures s.startAngle == 0.0 && s.endAngle == 0.0
    ensures s.path == Some(ArcPath(Polar(cx, cy, r, 0.0), r, false, Polar(cx, cy, r, 0.0), cx, cy))
  {
  }

  /** A lone entry of -5 gives one slice from 0 to 0: the empty arc, not a full disc. */
  lemma NegativeSingleSlice()
    ensures var data := [Slice("Ann", -5, "#6366F1")];
      && Total(data) == -5 && Angle(data, 0) == 0.0 && Angle(data, 1) == 0.0
  {
    var data := [Slice("Ann", -5, "#6366F1")];
    assert data[..1] == data;
  }

  /** Values 1, 1 and 2 give slices of 90, 90 and 180 degrees. */
  lemma AnglesExample()
    ensures var data := [Slice("a", 1, "#6366F1"), Slice("b", 1, "#14B8A6"), Slice("c", 2, "#F43F5E")];
      && Total(data) == 4
      && Angle(data, 0) == 0.0 && Angle(data, 1) == 90.0 && Angle(data, 2) == 180.0
      && Angle(data, 3) == 360.0
  {
    var data := [Slice("a", 1, "#6366F1"), Slice("b", 1, "#14B8A6"), Slice("c", 2, "#F43F5E")];
    assert data[..0] == [] && data[..1] == [data[0]] && data[..2] == [data[0], data[1]];
    assert data[..3] == data;
  }

  /** The legend label: more than 18 characters become the first 16 and "...". */
  function LegendLabel(caption: string): (r: string)
    ensures |caption| > 18 ==> |r| == 19 && r[..16] == caption[..16] && r[16..] == "..."
    ensures |caption| <= 18 ==> r == caption
    ensures |r| <= 19
  {
    if |caption| > 18 then caption[..16] + "..." else caption
  }

  /** `Math.max(pieMinHeight, legendYStart + n * legendItemHeight + legendBottomPadding)`. */
  function ViewboxHeight(entries: nat): (h: int)
    ensures h >= 220 && h >= 90 + 20 * entries
    ensures h == 220 || h == 90 + 20 * entries
    ensures h == 220 <==> entries <= 6
  {
    if 220 >= 40 + entries * 20 + 50 then 220 else 40 + entries * 20 + 50
  }

  /** The pie sits at x = 100 with radius 80, centred vertically in the drawing. */
  function PieCenter(entries: nat): (p: (real, real))
    ensures p.0 == 100.0 && p.1 * 2.0 == ViewboxHeight(entries) as real
    ensures p.1 - 80.0 >= 30.0
  {
    (100.0, ViewboxHeight(entries) as real / 2.0)
  }
}
