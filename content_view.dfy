/**
  The arithmetic behind the stop screen (ContentView.swift): how visible a
  row of the arrival list is inside the scroll view, how the dial lays out
  one concentric band per arrival with room in proportion to its opacity,
  how far each band's arc sweeps, and how measured frames are merged.

  Lengths, angles and dates are real numbers (points, degrees, seconds).
 */
module ContentView {
  import opened Wrappers
  import opened Models

  // ---------------------------------------------------------------------
  // Measured frames
  // ---------------------------------------------------------------------

  /** The vertical extent of a measured `CGRect`, by its standardized edges. */
  datatype Rect = Rect(minY: real, maxY: real)

  function Height(r: Rect): real {
    r.maxY - r.minY
  }

  /** The preference key under which the scroll view reports its own frame. */
  const ScrollViewKey: string := "foo"

  /** How far below the scroll view's top a row starts to fade. */
  const TopInset: real := 50.0

  /** The weight given to a row whose frames have not been measured yet. */
  const Unmeasured: real := 0.5

  lemma PositiveFactor(a: real, h: real)
    requires h > 0.0 && a * h > 0.0
    ensures a > 0.0
  {
  }

  lemma FractionInUnit(x: real, h: real)
    requires 0.0 < x < h
    ensures 0.0 < x / h < 1.0
  {
    var q := x / h;
    assert q * h == x;
    PositiveFactor(q, h);
    assert (1.0 - q) * h == h - x;
    PositiveFactor(1.0 - q, h);
  }

  /**
    `MeasureFramePreferenceKey.reduce`: the frames reported later override
    those reported earlier under the same key.
   */
  function Reduce(value: map<string, Rect>, nextValue: map<string, Rect>): (merged: map<string, Rect>)
    ensures merged.Keys == value.Keys + nextValue.Keys
    ensures forall k :: k in nextValue ==> merged[k] == nextValue[k]
    ensures forall k :: k in value && k !in nextValue ==> merged[k] == value[k]
  {
    value + nextValue
  }

  /** `MeasureFramePreferenceKey.defaultValue` */
  const DefaultFrames: map<string, Rect> := map[]

  /** The default value is neutral on both sides of `Reduce`. */
  lemma ReduceIdentity(value: map<string, Rect>)
    ensures Reduce(DefaultFrames, value) == value
    ensures Reduce(value, DefaultFrames) == value
  {
  }

  /** Grouping the reports of a view tree differently gives the same frames. */
  lemma ReduceAssociative(a: map<string, Rect>, b: map<string, Rect>, c: map<string, Rect>)
    ensures Reduce(Reduce(a, b), c) == Reduce(a, Reduce(b, c))
  {
  }

  /** Reducing the same report twice changes nothing. */
  lemma ReduceIdempotent(a: map<string, Rect>, b: map<string, Rect>)
    ensures Reduce(Reduce(a, b), b) == Reduce(a, b)
  {
  }

  // ---------------------------------------------------------------------
  // Row visibility and opacity
  // ---------------------------------------------------------------------

  /** Both the scroll view's frame and the row's frame have been measured. */
  predicate Measured(frames: map<string, Rect>, arrivalID: string) {
    ScrollViewKey in frames && arrivalID in frames
  }

  /**
    `StopView.rowVisibility`: the share of the row that lies between the
    scroll view's inset top edge and its bottom edge.
   */
  function RowVisibility(frames: map<string, Rect>, arrivalID: string): (v: real)
    ensures 0.0 <= v <= 1.0
    ensures !Measured(frames, arrivalID) ==> v == Unmeasured
    ensures Measured(frames, arrivalID) ==>
      var view, row := frames[ScrollViewKey], frames[arrivalID];
      (v == 0.0 <==> view.minY + TopInset > row.maxY || view.maxY < row.minY)
    ensures Measured(frames, arrivalID) ==>
      var view, row := frames[ScrollViewKey], frames[arrivalID];
      row.minY < view.minY + TopInset < row.maxY && row.minY <= view.maxY ==>
        v == (row.maxY - (view.minY + TopInset)) / Height(row)
    ensures Measured(frames, arrivalID) ==>
      var view, row := frames[ScrollViewKey], frames[arrivalID];
      ((view.minY + TopInset <= row.minY || view.minY + TopInset == row.maxY) &&
       row.minY < view.maxY < row.maxY) ==>
        v == (view.maxY - row.minY) / Height(row)
    ensures Measured(frames, arrivalID) ==>
      var view, row := frames[ScrollViewKey], frames[arrivalID];
      (row.minY <= row.maxY &&
       (view.minY + TopInset <= row.minY || view.minY + TopInset == row.maxY) &&
       (row.maxY <= view.maxY || view.maxY == row.minY)) ==> v == 1.0
  {
    if !Measured(frames, arrivalID) then Unmeasured
    else
      var view, row := frames[ScrollViewKey], frames[arrivalID];
      var top := view.minY + TopInset;
      if top > row.maxY then 0.0
      else if view.maxY < row.minY then 0.0
      else if top > row.minY && top < row.maxY then
        FractionInUnit(row.maxY - top, Height(row));
        (row.maxY - top) / Height(row)
      else if view.maxY > row.minY && view.maxY < row.maxY then
        FractionInUnit(view.maxY - row.minY, Height(row));
        (view.maxY - row.minY) / Height(row)
      else 1.0
  }

  /**
    `StopView.rowOpacity`: like `RowVisibility`, but a row only fades under
    the scroll view's top edge, never at its bottom edge.
   */
  function RowOpacity(frames: map<string, Rect>, arrivalID: string): (o: real)
    ensures 0.0 <= o <= 1.0
    ensures !Measured(frames, arrivalID) ==> o == Unmeasured
    ensures Measured(frames, arrivalID) ==>
      var view, row := frames[ScrollViewKey], frames[arrivalID];
      (o == 0.0 <==> view.minY + TopInset > row.maxY)
    ensures Measured(frames, arrivalID) ==>
      var view, row := frames[ScrollViewKey], frames[arrivalID];
      row.minY < view.minY + TopInset < row.maxY ==>
        o == (row.maxY - (view.minY + TopInset)) / Height(row)
    ensures Measured(frames, arrivalID) ==>
      var view, row := frames[ScrollViewKey], frames[arrivalID];
      row.minY <= row.maxY && view.minY + TopInset <= row.minY ==> o == 1.0
  {
    if !Measured(frames, arrivalID) then Unmeasured
    else
      var view, row := frames[ScrollViewKey], frames[arrivalID];
      var top := view.minY + TopInset;
      if top > row.maxY then 0.0
      else if top > row.minY && top < row.maxY then
        FractionInUnit(row.maxY - top, Height(row));
        (row.maxY - top) / Height(row)
      else 1.0
  }

  /** A row is never drawn fainter than it is visible. */
  lemma OpacityAtLeastVisibility(frames: map<string, Rect>, arrivalID: string)
    ensures RowOpacity(frames, arrivalID) >= RowVisibility(frames, arrivalID)
  {
    if Measured(frames, arrivalID) {
      var view, row := frames[ScrollViewKey], frames[arrivalID];
      var top := view.minY + TopInset;
      if !(top > row.maxY) && !(view.maxY < row.minY) && !(top > row.minY && top < row.maxY) {
        assert RowOpacity(frames, arrivalID) == 1.0;
      }
    }
  }

  /** Below the viewport, a row is invisible yet fully opaque. */
  lemma BelowViewport(frames: map<string, Rect>, arrivalID: string)
    requires Measured(frames, arrivalID)
    requires frames[arrivalID].minY <= frames[arrivalID].maxY
    requires frames[ScrollViewKey].minY + TopInset <= frames[arrivalID].minY
    requires frames[ScrollViewKey].maxY < frames[arrivalID].minY
    ensures RowVisibility(frames, arrivalID) == 0.0
    ensures RowOpacity(frames, arrivalID) == 1.0
  {
  }

  /**
    When the inset top edge lies exactly on the row's bottom edge, the row
    counts as fully opaque although none of it is below that edge. It also
    counts as fully visible when it ends at or above the scroll view's
    bottom edge; when that edge cuts it, the part above the edge counts.
   */
  lemma TopOnBottomEdge(frames: map<string, Rect>, arrivalID: string)
    requires Measured(frames, arrivalID)
    requires frames[ScrollViewKey].minY + TopInset == frames[arrivalID].maxY
    ensures RowOpacity(frames, arrivalID) == 1.0
    ensures frames[arrivalID].minY <= frames[arrivalID].maxY <= frames[ScrollViewKey].maxY ==>
      RowVisibility(frames, arrivalID) == 1.0
    ensures frames[arrivalID].minY < frames[ScrollViewKey].maxY < frames[arrivalID].maxY ==>
      RowVisibility(frames, arrivalID)
        == (frames[ScrollViewKey].maxY - frames[arrivalID].minY) / Height(frames[arrivalID])
  {
  }

  /**
    When the row's top edge lies exactly on the scroll view's bottom edge,
    a row starting at or below the inset top edge, or ending exactly on it,
    counts as fully visible although none of it is above the bottom edge.
   */
  lemma RowOnBottomEdge(frames: map<string, Rect>, arrivalID: string)
    requires Measured(frames, arrivalID)
    requires frames[arrivalID].minY < frames[arrivalID].maxY
    requires frames[ScrollViewKey].minY + TopInset <= frames[arrivalID].minY
          || frames[ScrollViewKey].minY + TopInset == frames[arrivalID].maxY
    requires frames[ScrollViewKey].maxY == frames[arrivalID].minY
    ensures RowVisibility(frames, arrivalID) == 1.0
  {
  }

  /** A 40-point row whose middle sits on the inset top edge is half visible. */
  lemma RowVisibilityExample()
    ensures RowVisibility(map[ScrollViewKey := Rect(0.0, 500.0), "r" := Rect(30.0, 70.0)], "r") == 0.5
    ensures RowOpacity(map[ScrollViewKey := Rect(0.0, 500.0), "r" := Rect(30.0, 70.0)], "r") == 0.5
    ensures RowVisibility(map[ScrollViewKey := Rect(0.0, 500.0)], "r") == Unmeasured
  {
  }

  predicate DistinctArrivalIDs(arrivals: seq<Arrival>) {
    forall i, j :: 0 <= i < j < |arrivals| ==> arrivals[i].id != arrivals[j].id
  }

  /**
    `StopView.arrivalOpacities`: each listed arrival's row visibility,
    keyed by arrival ID.
   */
  function ArrivalOpacities(arrivals: seq<Arrival>, frames: map<string, Rect>): (opacities: map<string, real>)
    requires DistinctArrivalIDs(arrivals)
    ensures opacities.Keys == set a | a in arrivals :: a.id
    ensures forall a :: a in arrivals ==> opacities[a.id] == RowVisibility(frames, a.id)
    ensures forall id :: id in opacities ==> 0.0 <= opacities[id] <= 1.0
  {
    map a | a in arrivals :: a.id := RowVisibility(frames, a.id)
  }

  // ---------------------------------------------------------------------
  // Dial layout
  // ---------------------------------------------------------------------

  /** The inputs of `DialView`. */
  datatype Dial = Dial(
    arrivalOpacities: map<string, real>,
    currentDate: real,
    arrivals: seq<Arrival>,
    dialRadius: real,
    centerRadius: real,
    ringMargin: real)

  /** The opacity a ring is drawn with: its entry, or 0 when it has none. */
  function RingOpacity(d: Dial, arrival: Arrival): real {
    if arrival.id in d.arrivalOpacities then d.arrivalOpacities[arrival.id] else 0.0
  }

  predicate NonNegativeOpacities(d: Dial) {
    forall id :: id in d.arrivalOpacities ==> d.arrivalOpacities[id] >= 0.0
  }

  /** Ten units of room per unit of the ring's opacity; none off the list. */
  function RingSpace(d: Dial, index: int): (space: real)
    ensures !(0 <= index < |d.arrivals|) ==> space == 0.0
    ensures 0 <= index < |d.arrivals| ==> space == 10.0 * RingOpacity(d, d.arrivals[index])
    ensures 0 <= index < |d.arrivals| && d.arrivals[index].id !in d.arrivalOpacities ==> space == 0.0
    ensures NonNegativeOpacities(d) ==> space >= 0.0
  {
    if 0 <= index < |d.arrivals| then
      10.0 * RingOpacity(d, d.arrivals[index])
    else 0.0
  }

  /** The room taken by the rings before index `limit`. */
  function CumulativeSpace(d: Dial, limit: nat): real {
    if limit == 0 then 0.0 else CumulativeSpace(d, limit - 1) + RingSpace(d, limit - 1)
  }

  /** The room taken by all the rings. */
  function TotalSpace(d: Dial): real {
    CumulativeSpace(d, |d.arrivals|)
  }

  /** `DialView.cumulativeRingSpace(through:)` */
  method CumulativeRingSpace(d: Dial, limit: int) returns (total: real)
    requires 0 <= limit
    ensures total == CumulativeSpace(d, limit)
  {
    total := 0.0;
    for index := 0 to limit
      invariant total == CumulativeSpace(d, index)
    {
      total := total + RingSpace(d, index);
    }
  }

  /** `DialView.totalRingSpace()` */
  method TotalRingSpace(d: Dial) returns (total: real)
    ensures total == TotalSpace(d)
  {
    total := CumulativeRingSpace(d, |d.arrivals|);
  }

  lemma {:induction false} CumulativeMonotone(d: Dial, j: nat, k: nat)
    requires NonNegativeOpacities(d)
    requires j <= k
    ensures 0.0 <= CumulativeSpace(d, j) <= CumulativeSpace(d, k)
    decreases k
  {
    if k == 0 {
    } else if j < k {
      CumulativeMonotone(d, j, k - 1);
    } else if j > 0 {
      CumulativeMonotone(d, j - 1, k - 1);
    }
  }

  lemma {:induction false} CumulativeSaturates(d: Dial, k: nat)
    requires k >= |d.arrivals|
    ensures CumulativeSpace(d, k) == TotalSpace(d)
    decreases k
  {
    if k > |d.arrivals| {
      CumulativeSaturates(d, k - 1);
    }
  }

  /** How far in from the dial's rim a prefix of `space` units of room reaches. */
  function Depth(d: Dial, space: real): real
    requires TotalSpace(d) != 0.0
  {
    (space / TotalSpace(d)) * (d.dialRadius - d.centerRadius)
  }

  lemma DepthAdd(d: Dial, x: real, y: real)
    requires TotalSpace(d) != 0.0
    ensures Depth(d, x + y) == Depth(d, x) + Depth(d, y)
  {
    var t, w := TotalSpace(d), d.dialRadius - d.centerRadius;
    assert (x + y) / t == x / t + y / t;
    assert (x / t + y / t) * w == (x / t) * w + (y / t) * w;
  }

  lemma DepthHalf(d: Dial, x: real)
    requires TotalSpace(d) != 0.0
    ensures Depth(d, 0.5 * x) == 0.5 * Depth(d, x)
  {
    var t, w := TotalSpace(d), d.dialRadius - d.centerRadius;
    assert (0.5 * x) / t == 0.5 * (x / t);
    assert (0.5 * (x / t)) * w == 0.5 * ((x / t) * w);
  }

  lemma DepthWithin(d: Dial, space: real)
    requires TotalSpace(d) > 0.0 && d.centerRadius <= d.dialRadius
    requires 0.0 <= space <= TotalSpace(d)
    ensures 0.0 <= Depth(d, space) <= d.dialRadius - d.centerRadius
  {
    var t, w := TotalSpace(d), d.dialRadius - d.centerRadius;
    assert 0.0 <= space / t <= 1.0 by {
      assert space / t * t == space;
    }
    assert (space / t) * w <= 1.0 * w;
  }

  /** With non-negative opacities, the rings before `k` take between none and all of the room. */
  lemma PrefixWithinTotal(d: Dial, k: nat)
    requires NonNegativeOpacities(d)
    ensures 0.0 <= CumulativeSpace(d, k) <= TotalSpace(d)
  {
    if k <= |d.arrivals| {
      CumulativeMonotone(d, k, |d.arrivals|);
    } else {
      CumulativeSaturates(d, k);
      CumulativeMonotone(d, 0, |d.arrivals|);
    }
  }

  /** With non-negative opacities, one ring takes between none and all of the room. */
  lemma SpaceWithinTotal(d: Dial, index: int)
    requires NonNegativeOpacities(d)
    ensures 0.0 <= RingSpace(d, index) <= TotalSpace(d)
  {
    if 0 <= index < |d.arrivals| {
      assert CumulativeSpace(d, index + 1) == CumulativeSpace(d, index) + RingSpace(d, index);
      CumulativeMonotone(d, 0, index);
      PrefixWithinTotal(d, index + 1);
    } else {
      CumulativeMonotone(d, 0, |d.arrivals|);
    }
  }

  /**
    `DialView.ringWidth(for:)`: the band's share of the room between the
    center disc and the rim.
   */
  function RingWidth(d: Dial, index: int): (width: real)
    requires TotalSpace(d) != 0.0
    ensures !(0 <= index < |d.arrivals|) ==> width == 0.0
    ensures 0 <= index < |d.arrivals| && RingOpacity(d, d.arrivals[index]) == 0.0 ==> width == 0.0
    ensures NonNegativeOpacities(d) && d.centerRadius <= d.dialRadius ==>
      0.0 <= width <= d.dialRadius - d.centerRadius
  {
    assert NonNegativeOpacities(d) && d.centerRadius <= d.dialRadius ==>
      0.0 <= Depth(d, RingSpace(d, index)) <= d.dialRadius - d.centerRadius by {
      if NonNegativeOpacities(d) && d.centerRadius <= d.dialRadius {
        SpaceWithinTotal(d, index);
        DepthWithin(d, RingSpace(d, index));
      }
    }
    (RingSpace(d, index) / TotalSpace(d)) * (d.dialRadius - d.centerRadius)
  }

  /**
    `DialView.ringRadius(for:)`: the radius of the middle of the band, whose
    outer edge lies as deep as the rings before it reach and whose inner
    edge as deep as the rings up to and including it reach.
   */
  function RingRadius(d: Dial, index: int): (radius: real)
    requires 0 <= index && TotalSpace(d) != 0.0
    ensures radius + RingWidth(d, index) / 2.0 == d.dialRadius - Depth(d, CumulativeSpace(d, index))
    ensures radius - RingWidth(d, index) / 2.0 == d.dialRadius - Depth(d, CumulativeSpace(d, index + 1))
  {
    var c, s := CumulativeSpace(d, index), RingSpace(d, index);
    DepthAdd(d, c, 0.5 * s);
    DepthHalf(d, s);
    DepthAdd(d, c, s);
    assert RingWidth(d, index) == Depth(d, s);
    d.dialRadius
      - (((CumulativeSpace(d, index) + 0.5 * RingSpace(d, index)) / TotalSpace(d)) * (d.dialRadius - d.centerRadius))
  }

  /** The first band touches the dial's rim. */
  lemma OuterEdge(d: Dial)
    requires TotalSpace(d) != 0.0
    ensures RingRadius(d, 0) + RingWidth(d, 0) / 2.0 == d.dialRadius
  {
  }

  /** Each band's inner edge is the next band's outer edge. */
  lemma Adjacent(d: Dial, index: nat)
    requires TotalSpace(d) != 0.0
    ensures RingRadius(d, index) - RingWidth(d, index) / 2.0
         == RingRadius(d, index + 1) + RingWidth(d, index + 1) / 2.0
  {
    assert RingRadius(d, index + 1) + RingWidth(d, index + 1) / 2.0
        == d.dialRadius - Depth(d, CumulativeSpace(d, index + 1));
  }

  /** The last band touches the center disc. */
  lemma InnerEdge(d: Dial)
    requires TotalSpace(d) != 0.0
    ensures |d.arrivals| >= 1
    ensures RingRadius(d, |d.arrivals| - 1) - RingWidth(d, |d.arrivals| - 1) / 2.0 == d.centerRadius
  {
    var n := |d.arrivals|;
    assert RingRadius(d, n - 1) - RingWidth(d, n - 1) / 2.0 == d.dialRadius - Depth(d, CumulativeSpace(d, n));
    assert Depth(d, TotalSpace(d)) == d.dialRadius - d.centerRadius;
  }

  /** The widths of the first `k` bands. */
  ghost function WidthSum(d: Dial, k: nat): real
    requires TotalSpace(d) != 0.0
  {
    if k == 0 then 0.0 else WidthSum(d, k - 1) + RingWidth(d, k - 1)
  }

  lemma {:induction false} WidthSumIsDepth(d: Dial, k: nat)
    requires TotalSpace(d) != 0.0
    ensures WidthSum(d, k) == Depth(d, CumulativeSpace(d, k))
  {
    if k == 0 {
      assert Depth(d, 0.0) == 0.0;
    } else {
      WidthSumIsDepth(d, k - 1);
      DepthAdd(d, CumulativeSpace(d, k - 1), RingSpace(d, k - 1));
    }
  }

  /** The bands share out exactly the room between the center disc and the rim. */
  lemma WidthsFillDial(d: Dial)
    requires TotalSpace(d) != 0.0
    ensures WidthSum(d, |d.arrivals|) == d.dialRadius - d.centerRadius
  {
    WidthSumIsDepth(d, |d.arrivals|);
    assert Depth(d, TotalSpace(d)) == d.dialRadius - d.centerRadius;
  }

  /** A ring drawn with opacity 0 gets no width. */
  lemma TransparentRingHasNoWidth(d: Dial, index: int)
    requires TotalSpace(d) != 0.0
    requires 0 <= index < |d.arrivals| && RingOpacity(d, d.arrivals[index]) == 0.0
    ensures RingWidth(d, index) == 0.0
  {
  }

  /** With non-negative opacities, every band lies between the center disc and the rim. */
  lemma BandInsideDial(d: Dial, index: nat)
    requires NonNegativeOpacities(d) && TotalSpace(d) != 0.0
    requires d.centerRadius <= d.dialRadius
    ensures d.centerRadius <= RingRadius(d, index) - RingWidth(d, index) / 2.0
    ensures RingRadius(d, index) - RingWidth(d, index) / 2.0 <= RingRadius(d, index) + RingWidth(d, index) / 2.0
    ensures RingRadius(d, index) + RingWidth(d, index) / 2.0 <= d.dialRadius
  {
    PrefixWithinTotal(d, index);
    PrefixWithinTotal(d, index + 1);
    CumulativeMonotone(d, index, index + 1);
    var s0, s1 := CumulativeSpace(d, index), CumulativeSpace(d, index + 1);
    DepthWithin(d, s0);
    DepthWithin(d, s1);
  }

  /** The opacities the stop screen hands to its dial are never negative. */
  lemma ArrivalOpacitiesAreNonNegative(d: Dial, frames: map<string, Rect>)
    requires DistinctArrivalIDs(d.arrivals)
    requires d.arrivalOpacities == ArrivalOpacities(d.arrivals, frames)
    ensures NonNegativeOpacities(d)
  {
  }

  /**
    Two rings on a dial of radius 100 with a center disc of radius 15: the
    visible one takes the whole band, the invisible one collapses onto the disc.
   */
  lemma TwoRingExample(a: Arrival, b: Arrival)
    requires a.id == "a" && b.id == "b"
    ensures
      var d := Dial(map["a" := 1.0, "b" := 0.0], 0.0, [a, b], 100.0, 15.0, 1.5);
      && TotalSpace(d) == 10.0
      && RingWidth(d, 0) == 85.0 && RingRadius(d, 0) == 57.5
      && RingWidth(d, 1) == 0.0 && RingRadius(d, 1) == 15.0
  {
    var d := Dial(map["a" := 1.0, "b" := 0.0], 0.0, [a, b], 100.0, 15.0, 1.5);
    assert RingSpace(d, 0) == 10.0;
    assert RingSpace(d, 1) == 0.0;
    assert CumulativeSpace(d, 1) == 10.0;
    assert TotalSpace(d) == CumulativeSpace(d, 2) == 10.0;
  }

  // ---------------------------------------------------------------------
  // Ring angle and arc
  // ---------------------------------------------------------------------

  /** One degree of sweep per ten seconds until arrival, clamped to [1, 360]. */
  function SweepDegrees(interval: real): (degrees: real)
    ensures 1.0 <= degrees <= 360.0
    ensures 1.0 <= interval / 10.0 <= 360.0 ==> degrees == interval / 10.0
    ensures interval / 10.0 < 1.0 ==> degrees == 1.0
    ensures interval / 10.0 > 360.0 ==> degrees == 360.0
  {
    if interval / 10.0 < 1.0 then 1.0
    else if interval / 10.0 > 360.0 then 360.0
    else interval / 10.0
  }

  /** `DialView.ringAngle(for:)` */
  method RingAngle(d: Dial, arrival: Arrival) returns (degrees: real)
    ensures degrees == SweepDegrees(arrival.scheduledDate - d.currentDate)
    ensures 1.0 <= degrees <= 360.0
  {
    degrees := (arrival.scheduledDate - d.currentDate) / 10.0;
    if degrees < 1.0 {
      degrees := 1.0;
    }
    if degrees > 360.0 {
      degrees := 360.0;
    }
  }

  /** As time passes, an arrival's arc never grows. */
  lemma SweepShrinksOverTime(scheduled: real, earlier: real, later: real)
    requires earlier <= later
    ensures SweepDegrees(scheduled - later) <= SweepDegrees(scheduled - earlier)
  {
  }

  /** An hour out is the full circle, half an hour half of it, a departed bus one degree. */
  lemma SweepExamples()
    ensures SweepDegrees(3600.0) == 360.0
    ensures SweepDegrees(7200.0) == 360.0
    ensures SweepDegrees(1800.0) == 180.0
    ensures SweepDegrees(0.0) == 1.0
    ensures SweepDegrees(-120.0) == 1.0
  {
  }

  /** `ArrivalView` shows "Now" instead of a time once the arrival is a minute away. */
  predicate ShowsNow(arrival: Arrival, currentDate: real) {
    !(arrival.scheduledDate - currentDate > 60.0)
  }

  /**
    The time shown in an arrival's row. `formatted` is what the minutes
    formatter returns for the interval, which is not part of this model.
   */
  function FormattedTime(arrival: Arrival, currentDate: real, formatted: Option<string>): (text: string)
    ensures ShowsNow(arrival, currentDate) ==> text == "Now"
    ensures !ShowsNow(arrival, currentDate) ==> text == if formatted.Some? then formatted.value else "--"
  {
    var timeInterval := arrival.scheduledDate - currentDate;
    if !(timeInterval > 60.0) then "Now"
    else if formatted.Some? then formatted.value
    else "--"
  }

  /** An arrival shown as "Now" sweeps at most six degrees on the dial. */
  lemma NowIsSmallSweep(arrival: Arrival, currentDate: real)
    requires ShowsNow(arrival, currentDate)
    ensures SweepDegrees(arrival.scheduledDate - currentDate) <= 6.0
  {
  }

  /** `RingArc.Direction` */
  datatype ArcDirection = Clockwise | CounterClockwise

  /** `RingArc.startAngle`: a clockwise arc starts at the top of the dial. */
  function StartAngle(direction: ArcDirection, angle: real): (start: real)
    ensures direction.Clockwise? ==> start == -90.0
    ensures direction.CounterClockwise? ==> start - angle == -90.0
  {
    match direction
    case CounterClockwise => -90.0 + angle
    case Clockwise => -90.0
  }

  /** `RingArc.endAngle`: the arc ends `angle` degrees before it starts. */
  function EndAngle(direction: ArcDirection, angle: real): (end: real)
    ensures end == StartAngle(direction, angle) - angle
  {
    match direction
    case CounterClockwise => -90.0
    case Clockwise => -90.0 - angle
  }

  /**
    Either way round, the arc spans `angle` degrees and has one end at the
    top of the dial (-90 degrees).
   */
  lemma ArcSpan(direction: ArcDirection, angle: real)
    ensures StartAngle(direction, angle) - EndAngle(direction, angle) == angle
    ensures StartAngle(direction, angle) == -90.0 || EndAngle(direction, angle) == -90.0
    ensures direction.Clockwise? ==> StartAngle(direction, angle) == -90.0
    ensures direction.CounterClockwise? ==> EndAngle(direction, angle) == -90.0
  {
  }

  /** The two directions draw the same arc, mirrored through the top of the dial. */
  lemma ArcMirror(angle: real)
    ensures StartAngle(CounterClockwise, angle) - (-90.0) == (-90.0) - EndAngle(Clockwise, angle)
  {
  }
}
