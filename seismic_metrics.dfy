/** Per-gather QC metrics and the spatial metrics map (seismicpro/src/seismic_metrics.py).
    The batch plumbing (thread-parallel decorators, position lookup, writing into the
    batch component) is left to the caller: each metric is the value one gather yields. */
module SeismicMetrics {
  import opened Wrappers
  import opened ArrayOps

  datatype Coord = Coord(x: real, y: real)

  /** One row of the metrics map: a coordinate and the metric recorded there. */
  datatype MapEntry = MapEntry(coord: Coord, metric: real)

  /** [min x, max x, min y, max y] of the mapped coordinates. */
  datatype Extent = Extent(xmin: real, xmax: real, ymin: real, ymax: real)

  /** Why building the map raises: unpacking the columns of an empty map into three, or
      np.arange with step 0. */
  datatype MapError = EmptyMap | ZeroBinSize

  /** A built map: the binned grid (row = y-bin, column = x-bin) and its extent. */
  datatype MapGrid = MapGrid(cells: array2<Option<real>>, extent: Extent)

  // ---------------------------------------------------------------------------
  // SemblanceMetrics.calculate_minmax

  /** max - min of one semblance row. */
  function RowSpread(row: seq<real>): (r: real)
    requires |row| > 0
    ensures r >= 0.0
    ensures forall i, j :: 0 <= i < |row| && 0 <= j < |row| ==> row[i] - row[j] <= r
  {
    Max(row) - Min(row)
  }

  /** The largest per-row spread of a semblance; None where NumPy raises on an empty
      reduction (no rows, or rows without columns). */
  function CalculateMinmax(semblance: seq<seq<real>>): (r: Option<real>)
    ensures r.None? <==> |semblance| == 0 || exists k :: 0 <= k < |semblance| && |semblance[k]| == 0
    ensures r.Some? ==> r.value >= 0.0
    ensures r.Some? ==> forall k :: 0 <= k < |semblance| ==> RowSpread(semblance[k]) <= r.value
    ensures r.Some? ==> exists k :: 0 <= k < |semblance| && RowSpread(semblance[k]) == r.value
  {
    if |semblance| == 0 || exists k :: 0 <= k < |semblance| && |semblance[k]| == 0 then None
    else
      var spreads := seq(|semblance|, k requires 0 <= k < |semblance| => RowSpread(semblance[k]));
      var m := Max(spreads);
      assert spreads[0] >= 0.0;
      assert forall k :: 0 <= k < |semblance| ==> spreads[k] == RowSpread(semblance[k]);
      Some(m)
  }

  // ---------------------------------------------------------------------------
  // PM.velocity

  /** offset[k] / time[k] for the traces whose picked time exceeds 1, in trace order. */
  function VelocityTerms(time: seq<real>, offset: seq<real>): (r: seq<real>)
    requires |time| == |offset|
    ensures |r| <= |time|
  {
    if |time| == 0 then []
    else
      var n := |time| - 1;
      VelocityTerms(time[..n], offset[..n]) + (if time[n] > 1.0 then [offset[n] / time[n]] else [])
  }

  /** Every qualifying trace contributes its ratio, and every term is the ratio of a
      qualifying trace. */
  lemma {:induction false} VelocityTermsMembers(time: seq<real>, offset: seq<real>)
    requires |time| == |offset|
    ensures forall k :: 0 <= k < |time| && time[k] > 1.0 ==> offset[k] / time[k] in VelocityTerms(time, offset)
    ensures forall v :: v in VelocityTerms(time, offset) ==>
              exists k :: 0 <= k < |time| && time[k] > 1.0 && v == offset[k] / time[k]
  {
    if |time| > 0 {
      var n := |time| - 1;
      var t, o := time[..n], offset[..n];
      var p := VelocityTerms(t, o);
      var last: seq<real> := if time[n] > 1.0 then [offset[n] / time[n]] else [];
      assert VelocityTerms(time, offset) == p + last;
      VelocityTermsMembers(t, o);
      forall k | 0 <= k < |time| && time[k] > 1.0
        ensures offset[k] / time[k] in p + last
      {
        if k < n {
          assert t[k] == time[k] && o[k] == offset[k];
          assert o[k] / t[k] in p;
        }
      }
      forall v | v in p + last
        ensures exists k :: 0 <= k < |time| && time[k] > 1.0 && v == offset[k] / time[k]
      {
        if v in p {
          var k :| 0 <= k < |t| && t[k] > 1.0 && v == o[k] / t[k];
          assert time[k] == t[k] && offset[k] == o[k];
        } else {
          assert time[n] > 1.0 && v == offset[n] / time[n];
        }
      }
    }
  }

  /** Mean apparent velocity offset/time over the traces picked later than time 1;
      None (NumPy's NaN mean of an empty selection) when no trace qualifies. */
  function Velocity(time: seq<real>, offset: seq<real>): (r: Option<real>)
    requires |time| == |offset|
    ensures r.None? <==> forall k :: 0 <= k < |time| ==> time[k] <= 1.0
    ensures r.Some? ==> exists k :: 0 <= k < |time| && time[k] > 1.0 && offset[k] / time[k] <= r.value
    ensures r.Some? ==> exists k :: 0 <= k < |time| && time[k] > 1.0 && r.value <= offset[k] / time[k]
    ensures r.Some? ==> |VelocityTerms(time, offset)| > 0 && r.value == Mean(VelocityTerms(time, offset))
  {
    var v := VelocityTerms(time, offset);
    VelocityTermsMembers(time, offset);
    if |v| == 0 then None
    else
      MeanBounds(v);
      Some(Mean(v))
  }

  /** The ratios of two runs of traces are those of the first run, then those of the
      second. */
  lemma {:induction false} VelocityTermsConcat(t1: seq<real>, o1: seq<real>, t2: seq<real>, o2: seq<real>)
    requires |t1| == |o1| && |t2| == |o2|
    ensures VelocityTerms(t1 + t2, o1 + o2) == VelocityTerms(t1, o1) + VelocityTerms(t2, o2)
  {
    if |t2| > 0 {
      var n := |t2| - 1;
      VelocityTermsConcat(t1, o1, t2[..n], o2[..n]);
      DropLastConcat(t1, t2);
      DropLastConcat(o1, o2);
    } else {
      ConcatEmpty(t1, t2);
      ConcatEmpty(o1, o2);
    }
  }

  /** One trace contributes its ratio exactly when it is picked later than time 1. */
  lemma VelocityTermsSingle(t: real, o: real)
    ensures VelocityTerms([t], [o]) == if t > 1.0 then [o / t] else []
  {
    assert [t][..0] == [] && [o][..0] == [];
  }

  /** A trace picked at time 1 or earlier, wherever it stands, does not influence the
      velocity. */
  lemma VelocityIgnoresEarlyPicks(t1: seq<real>, o1: seq<real>, t: real, o: real, t2: seq<real>, o2: seq<real>)
    requires |t1| == |o1| && |t2| == |o2|
    requires t <= 1.0
    ensures Velocity(t1 + [t] + t2, o1 + [o] + o2) == Velocity(t1 + t2, o1 + o2)
  {
    VelocityTermsConcat(t1 + [t], o1 + [o], t2, o2);
    VelocityTermsConcat(t1, o1, [t], [o]);
    VelocityTermsSingle(t, o);
    VelocityTermsConcat(t1, o1, t2, o2);
    assert VelocityTerms(t1 + [t], o1 + [o]) == VelocityTerms(t1, o1);
  }

  /** When every qualifying trace lies on a line offset = vel * time, the metric is vel. */
  lemma ConstantVelocity(time: seq<real>, offset: seq<real>, vel: real)
    requires |time| == |offset|
    requires exists k :: 0 <= k < |time| && time[k] > 1.0
    requires forall k :: 0 <= k < |time| && time[k] > 1.0 ==> offset[k] == vel * time[k]
    ensures Velocity(time, offset) == Some(vel)
  {
    var v := VelocityTerms(time, offset);
    VelocityTermsMembers(time, offset);
    forall i | 0 <= i < |v| ensures vel <= v[i] <= vel {
      assert v[i] in v;
      var k :| 0 <= k < |time| && time[k] > 1.0 && v[i] == offset[k] / time[k];
      RatioOnLine(time, offset, vel, k);
    }
    var k :| 0 <= k < |time| && time[k] > 1.0;
    assert offset[k] / time[k] in v;
    MeanWithin(v, vel, vel);
  }

  /** A qualifying trace on the line offset = vel * time has the ratio vel. */
  lemma RatioOnLine(time: seq<real>, offset: seq<real>, vel: real, k: nat)
    requires |time| == |offset| && k < |time| && time[k] > 1.0
    requires forall k :: 0 <= k < |time| && time[k] > 1.0 ==> offset[k] == vel * time[k]
    ensures offset[k] / time[k] == vel
  {
    var o, t := offset[k], time[k];
    assert o == vel * t;
    DivOfMultiple(o, vel, t);
  }

  // ---------------------------------------------------------------------------
  // MetricsMap.__split_result and the extent computed by construct_map

  /** The map's rows split into x, y and metric columns. */
  function SplitResult(entries: seq<MapEntry>): (r: (seq<real>, seq<real>, seq<real>))
    ensures |r.0| == |entries| && |r.1| == |entries| && |r.2| == |entries|
  {
    (seq(|entries|, k requires 0 <= k < |entries| => entries[k].coord.x),
     seq(|entries|, k requires 0 <= k < |entries| => entries[k].coord.y),
     seq(|entries|, k requires 0 <= k < |entries| => entries[k].metric))
  }

  /** Splitting loses nothing: zipping the three columns back gives the rows. */
  lemma SplitResultRoundTrip(entries: seq<MapEntry>)
    ensures var (xs, ys, ms) := SplitResult(entries);
            seq(|entries|, k requires 0 <= k < |entries| => MapEntry(Coord(xs[k], ys[k]), ms[k])) == entries
  {
  }

  /** Extent [min x, max x, min y, max y]; None for an empty map, where min() raises. */
  function MapExtent(entries: seq<MapEntry>): (e: Option<Extent>)
    ensures e.None? <==> |entries| == 0
    ensures e.Some? ==> forall k :: 0 <= k < |entries| ==>
              e.value.xmin <= entries[k].coord.x <= e.value.xmax &&
              e.value.ymin <= entries[k].coord.y <= e.value.ymax
    ensures e.Some? ==> (exists k :: 0 <= k < |entries| && entries[k].coord.x == e.value.xmin) &&
                        (exists k :: 0 <= k < |entries| && entries[k].coord.x == e.value.xmax) &&
                        (exists k :: 0 <= k < |entries| && entries[k].coord.y == e.value.ymin) &&
                        (exists k :: 0 <= k < |entries| && entries[k].coord.y == e.value.ymax)
  {
    if |entries| == 0 then None
    else
      var (xs, ys, _) := SplitResult(entries);
      assert forall k :: 0 <= k < |entries| ==> xs[k] == entries[k].coord.x && ys[k] == entries[k].coord.y;
      Some(Extent(Min(xs), Max(xs), Min(ys), Max(ys)))
  }

  // ---------------------------------------------------------------------------
  // MetricsMap.construct_metrics_map

  /** The bin starts np.arange(min, max + bin_size, bin_size) along one axis. */
  function BinStarts(cs: seq<real>, binSize: real): seq<real>
    requires |cs| > 0 && binSize != 0.0
  {
    Arange(Min(cs), Max(cs) + binSize, binSize)
  }

  /** The mask of construct_metrics_map: x in [x0, x0 + b) and y in [y0, y0 + b). */
  predicate InCell(x: real, y: real, x0: real, y0: real, b: real)
  {
    x - x0 >= 0.0 && x - x0 < b && y - y0 >= 0.0 && y - y0 < b
  }

  /** The metrics of the first n samples that fall in the cell at (x0, y0), in order. */
  function CellSamples(xs: seq<real>, ys: seq<real>, ms: seq<real>, n: nat, x0: real, y0: real, b: real): (r: seq<real>)
    requires n <= |xs| && |xs| == |ys| == |ms|
    ensures |r| <= n
  {
    if n == 0 then []
    else
      CellSamples(xs, ys, ms, n - 1, x0, y0, b)
        + (if InCell(xs[n - 1], ys[n - 1], x0, y0, b) then [ms[n - 1]] else [])
  }

  /** Every sample in the cell contributes its metric, and every metric gathered comes
      from a sample in the cell. */
  lemma {:induction false} CellSamplesMembers(xs: seq<real>, ys: seq<real>, ms: seq<real>, n: nat,
                                              x0: real, y0: real, b: real)
    requires n <= |xs| && |xs| == |ys| == |ms|
    ensures forall k :: 0 <= k < n && InCell(xs[k], ys[k], x0, y0, b) ==> ms[k] in CellSamples(xs, ys, ms, n, x0, y0, b)
    ensures forall v :: v in CellSamples(xs, ys, ms, n, x0, y0, b) ==>
              exists k :: 0 <= k < n && InCell(xs[k], ys[k], x0, y0, b) && ms[k] == v
  {
    if n > 0 {
      var p := CellSamples(xs, ys, ms, n - 1, x0, y0, b);
      var last: seq<real> := if InCell(xs[n - 1], ys[n - 1], x0, y0, b) then [ms[n - 1]] else [];
      assert CellSamples(xs, ys, ms, n, x0, y0, b) == p + last;
      CellSamplesMembers(xs, ys, ms, n - 1, x0, y0, b);
      forall k | 0 <= k < n && InCell(xs[k], ys[k], x0, y0, b)
        ensures ms[k] in p + last
      {
        if k < n - 1 {
          assert ms[k] in p;
        }
      }
      forall v | v in p + last
        ensures exists k :: 0 <= k < n && InCell(xs[k], ys[k], x0, y0, b) && ms[k] == v
      {
        if v !in p {
          assert InCell(xs[n - 1], ys[n - 1], x0, y0, b) && ms[n - 1] == v;
        }
      }
    }
  }

  /** No metric is gathered exactly when no sample lies in the cell. */
  lemma {:induction false} CellSamplesEmpty(xs: seq<real>, ys: seq<real>, ms: seq<real>, n: nat,
                                            x0: real, y0: real, b: real)
    requires n <= |xs| && |xs| == |ys| == |ms|
    ensures |CellSamples(xs, ys, ms, n, x0, y0, b)| == 0 <==> forall k :: 0 <= k < n ==> !InCell(xs[k], ys[k], x0, y0, b)
  {
    if n > 0 {
      CellSamplesEmpty(xs, ys, ms, n - 1, x0, y0, b);
    }
  }

  /** One grid cell: the mean of the metrics in it, or NaN (None) when it is empty. */
  function CellValue(xs: seq<real>, ys: seq<real>, ms: seq<real>, x0: real, y0: real, b: real): (r: Option<real>)
    requires |xs| == |ys| == |ms|
    ensures r.None? <==> forall k :: 0 <= k < |xs| ==> !InCell(xs[k], ys[k], x0, y0, b)
    ensures r.Some? ==>
              var sel := CellSamples(xs, ys, ms, |xs|, x0, y0, b);
              Sum(sel) == (|sel| as real) * r.value
  {
    var sel := CellSamples(xs, ys, ms, |xs|, x0, y0, b);
    CellSamplesEmpty(xs, ys, ms, |xs|, x0, y0, b);
    if |sel| > 0 then
      MeanTimesCount(sel, Mean(sel));
      Some(Mean(sel))
    else None
  }

  /** The metrics of the first n samples depend on those samples alone. */
  lemma {:induction false} CellSamplesPrefix(xs: seq<real>, ys: seq<real>, ms: seq<real>, n: nat, j: nat,
                                             x0: real, y0: real, b: real)
    requires n <= j <= |xs| && |xs| == |ys| == |ms|
    ensures CellSamples(xs, ys, ms, n, x0, y0, b) == CellSamples(xs[..j], ys[..j], ms[..j], n, x0, y0, b)
  {
    if n > 0 {
      CellSamplesPrefix(xs, ys, ms, n - 1, j, x0, y0, b);
    }
  }

  /** The cell's metrics over two runs of samples are those of the first run, then those
      of the second: the cell keeps every sample in it once, in sample order. */
  lemma {:induction false} CellSamplesConcat(xs1: seq<real>, ys1: seq<real>, ms1: seq<real>,
                                             xs2: seq<real>, ys2: seq<real>, ms2: seq<real>,
                                             x0: real, y0: real, b: real)
    requires |xs1| == |ys1| == |ms1| && |xs2| == |ys2| == |ms2|
    ensures CellSamples(xs1 + xs2, ys1 + ys2, ms1 + ms2, |xs1| + |xs2|, x0, y0, b) ==
              CellSamples(xs1, ys1, ms1, |xs1|, x0, y0, b) + CellSamples(xs2, ys2, ms2, |xs2|, x0, y0, b)
  {
    if |xs2| == 0 {
      ConcatEmpty(xs1, xs2);
      ConcatEmpty(ys1, ys2);
      ConcatEmpty(ms1, ms2);
    } else {
      var n2 := |xs2| - 1;
      var nn := |xs1| + n2;
      CellSamplesPrefix(xs1 + xs2, ys1 + ys2, ms1 + ms2, nn, nn, x0, y0, b);
      DropLastConcat(xs1, xs2);
      DropLastConcat(ys1, ys2);
      DropLastConcat(ms1, ms2);
      CellSamplesConcat(xs1, ys1, ms1, xs2[..n2], ys2[..n2], ms2[..n2], x0, y0, b);
      CellSamplesPrefix(xs2, ys2, ms2, n2, n2, x0, y0, b);
    }
  }

  /** One sample contributes its metric exactly when it lies in the cell. */
  lemma CellSamplesSingle(x: real, y: real, m: real, x0: real, y0: real, b: real)
    ensures CellSamples([x], [y], [m], 1, x0, y0, b) == if InCell(x, y, x0, y0, b) then [m] else []
  {
  }

  /** The grid shape and contents construct_metrics_map produces. */
  ghost predicate IsMetricsMap(grid: array2<Option<real>>, xs: seq<real>, ys: seq<real>, ms: seq<real>, binSize: real)
    requires |xs| == |ys| == |ms| > 0 && binSize != 0.0
    reads grid
  {
    var rangeX, rangeY := BinStarts(xs, binSize), BinStarts(ys, binSize);
    && grid.Length0 == |rangeY|
    && grid.Length1 == |rangeX|
    && forall j, i :: 0 <= j < grid.Length0 && 0 <= i < grid.Length1 ==>
         grid[j, i] == CellValue(xs, ys, ms, rangeX[i], rangeY[j], binSize)
  }

  /** Fills a NaN-initialised grid cell by cell with the mean metric of the samples in
      each cell; rows are y-bins and columns x-bins. */
  method ConstructMetricsMap(xs: seq<real>, ys: seq<real>, ms: seq<real>, binSize: real)
      returns (grid: array2<Option<real>>)
    requires |xs| == |ys| == |ms| > 0
    requires binSize != 0.0
    ensures fresh(grid)
    ensures IsMetricsMap(grid, xs, ys, ms, binSize)
  {
    var rangeX := BinStarts(xs, binSize);
    var rangeY := BinStarts(ys, binSize);
    grid := new Option<real>[|rangeY|, |rangeX|]((j, i) => None);
    var i := 0;
    while i < |rangeX|
      invariant 0 <= i <= |rangeX|
      invariant forall j', i' :: 0 <= j' < |rangeY| && 0 <= i' < |rangeX| ==>
                  grid[j', i'] == if i' < i then CellValue(xs, ys, ms, rangeX[i'], rangeY[j'], binSize) else None
    {
      var j := 0;
      while j < |rangeY|
        invariant 0 <= j <= |rangeY|
        invariant forall j', i' :: 0 <= j' < |rangeY| && 0 <= i' < |rangeX| ==>
                    grid[j', i'] == if i' < i || (i' == i && j' < j)
                                    then CellValue(xs, ys, ms, rangeX[i'], rangeY[j'], binSize)
                                    else None
      {
        var sel := CellSamples(xs, ys, ms, |xs|, rangeX[i], rangeY[j], binSize);
        if |sel| > 0 {
          grid[j, i] := Some(Mean(sel));
        }
        j := j + 1;
      }
      i := i + 1;
    }
  }

  /** A cell is NaN exactly when no sample falls in it; otherwise its value lies between
      the smallest and the largest metric in it, and a cell holding a single sample
      holds that sample's metric. */
  lemma CellValueMeaning(xs: seq<real>, ys: seq<real>, ms: seq<real>, x0: real, y0: real, b: real)
    requires |xs| == |ys| == |ms|
    ensures CellValue(xs, ys, ms, x0, y0, b).None? <==>
              forall k :: 0 <= k < |xs| ==> !InCell(xs[k], ys[k], x0, y0, b)
    ensures CellValue(xs, ys, ms, x0, y0, b).Some? ==>
              (exists k :: 0 <= k < |xs| && InCell(xs[k], ys[k], x0, y0, b) &&
                           ms[k] <= CellValue(xs, ys, ms, x0, y0, b).value) &&
              (exists k :: 0 <= k < |xs| && InCell(xs[k], ys[k], x0, y0, b) &&
                           CellValue(xs, ys, ms, x0, y0, b).value <= ms[k])
    ensures forall k :: (0 <= k < |xs| && InCell(xs[k], ys[k], x0, y0, b) &&
                         (forall k' :: 0 <= k' < |xs| && k' != k ==> !InCell(xs[k'], ys[k'], x0, y0, b)))
              ==> CellValue(xs, ys, ms, x0, y0, b) == Some(ms[k])
  {
    var sel := CellSamples(xs, ys, ms, |xs|, x0, y0, b);
    CellSamplesMembers(xs, ys, ms, |xs|, x0, y0, b);
    if |sel| > 0 {
      MeanBounds(sel);
      assert Min(sel) in sel && Max(sel) in sel;
      forall k | 0 <= k < |xs| && InCell(xs[k], ys[k], x0, y0, b) &&
                 (forall k' :: 0 <= k' < |xs| && k' != k ==> !InCell(xs[k'], ys[k'], x0, y0, b))
        ensures CellValue(xs, ys, ms, x0, y0, b) == Some(ms[k])
      {
        forall i | 0 <= i < |sel| ensures ms[k] <= sel[i] <= ms[k] {
          assert sel[i] in sel;
        }
        MeanWithin(sel, ms[k], ms[k]);
      }
    }
  }

  // ---------------------------------------------------------------------------
  // Every sample is counted in exactly one cell

  /** How many of the first m bins [starts[i], starts[i] + b) contain v. */
  function Hits(v: real, starts: seq<real>, m: nat, b: real): nat
    requires m <= |starts|
  {
    if m == 0 then 0
    else Hits(v, starts, m - 1, b) + (if v - starts[m - 1] >= 0.0 && v - starts[m - 1] < b then 1 else 0)
  }

  /** How many of the first n samples fall in the cell at (x0, y0). */
  function CellCount(xs: seq<real>, ys: seq<real>, n: nat, x0: real, y0: real, b: real): nat
    requires n <= |xs| && |xs| == |ys|
  {
    if n == 0 then 0
    else CellCount(xs, ys, n - 1, x0, y0, b) + (if InCell(xs[n - 1], ys[n - 1], x0, y0, b) then 1 else 0)
  }

  /** The cell's count is the number of metrics the grid averages in it. */
  lemma {:induction false} CellCountSamples(xs: seq<real>, ys: seq<real>, ms: seq<real>, n: nat, x0: real, y0: real, b: real)
    requires n <= |xs| && |xs| == |ys| == |ms|
    ensures |CellSamples(xs, ys, ms, n, x0, y0, b)| == CellCount(xs, ys, n, x0, y0, b)
  {
    if n > 0 {
      CellCountSamples(xs, ys, ms, n - 1, x0, y0, b);
    }
  }

  /** Samples counted over the first m cells of the row of y-bin y0. */
  function RowCount(xs: seq<real>, ys: seq<real>, n: nat, rangeX: seq<real>, m: nat, y0: real, b: real): nat
    requires n <= |xs| && |xs| == |ys| && m <= |rangeX|
  {
    if m == 0 then 0
    else RowCount(xs, ys, n, rangeX, m - 1, y0, b) + CellCount(xs, ys, n, rangeX[m - 1], y0, b)
  }

  /** Samples counted over the first m rows of the grid. */
  function GridCount(xs: seq<real>, ys: seq<real>, n: nat, rangeX: seq<real>, rangeY: seq<real>, m: nat, b: real): nat
    requires n <= |xs| && |xs| == |ys| && m <= |rangeY|
  {
    if m == 0 then 0
    else GridCount(xs, ys, n, rangeX, rangeY, m - 1, b) + RowCount(xs, ys, n, rangeX, |rangeX|, rangeY[m - 1], b)
  }

  lemma {:induction false} RowCountStep(xs: seq<real>, ys: seq<real>, n: nat, rangeX: seq<real>, m: nat, y0: real, b: real)
    requires n < |xs| && |xs| == |ys| && m <= |rangeX|
    ensures RowCount(xs, ys, n + 1, rangeX, m, y0, b) ==
            RowCount(xs, ys, n, rangeX, m, y0, b) +
            (if ys[n] - y0 >= 0.0 && ys[n] - y0 < b then Hits(xs[n], rangeX, m, b) else 0)
  {
    if m > 0 {
      RowCountStep(xs, ys, n, rangeX, m - 1, y0, b);
    }
  }

  lemma {:induction false} GridCountStep(xs: seq<real>, ys: seq<real>, n: nat, rangeX: seq<real>, rangeY: seq<real>, m: nat, b: real)
    requires n < |xs| && |xs| == |ys| && m <= |rangeY|
    requires Hits(xs[n], rangeX, |rangeX|, b) == 1
    ensures GridCount(xs, ys, n + 1, rangeX, rangeY, m, b) ==
            GridCount(xs, ys, n, rangeX, rangeY, m, b) + Hits(ys[n], rangeY, m, b)
  {
    if m > 0 {
      GridCountStep(xs, ys, n, rangeX, rangeY, m - 1, b);
      RowCountStep(xs, ys, n, rangeX, |rangeX|, rangeY[m - 1], b);
    }
  }

  lemma {:induction false} NoSamplesNoCount(xs: seq<real>, ys: seq<real>, rangeX: seq<real>, rangeY: seq<real>, m: nat, b: real)
    requires |xs| == |ys| && m <= |rangeY|
    ensures GridCount(xs, ys, 0, rangeX, rangeY, m, b) == 0
  {
    if m > 0 {
      NoSamplesNoCount(xs, ys, rangeX, rangeY, m - 1, b);
      NoSamplesEmptyRow(xs, ys, rangeX, |rangeX|, rangeY[m - 1], b);
    }
  }

  lemma {:induction false} NoSamplesEmptyRow(xs: seq<real>, ys: seq<real>, rangeX: seq<real>, m: nat, y0: real, b: real)
    requires |xs| == |ys| && m <= |rangeX|
    ensures RowCount(xs, ys, 0, rangeX, m, y0, b) == 0
  {
    if m > 0 {
      NoSamplesEmptyRow(xs, ys, rangeX, m - 1, y0, b);
    }
  }

  /** If each sample lies in exactly one x-bin and one y-bin, the cell counts add up to
      the number of samples. */
  lemma {:induction false} GridCountAll(xs: seq<real>, ys: seq<real>, n: nat, rangeX: seq<real>, rangeY: seq<real>, b: real)
    requires n <= |xs| && |xs| == |ys|
    requires forall k :: 0 <= k < n ==> Hits(xs[k], rangeX, |rangeX|, b) == 1 && Hits(ys[k], rangeY, |rangeY|, b) == 1
    ensures GridCount(xs, ys, n, rangeX, rangeY, |rangeY|, b) == n
  {
    if n == 0 {
      NoSamplesNoCount(xs, ys, rangeX, rangeY, |rangeY|, b);
    } else {
      assert Hits(xs[n - 1], rangeX, |rangeX|, b) == 1 && Hits(ys[n - 1], rangeY, |rangeY|, b) == 1;
      GridCountAll(xs, ys, n - 1, rangeX, rangeY, b);
      GridCountStep(xs, ys, n - 1, rangeX, rangeY, |rangeY|, b);
    }
  }

  /** With a positive bin size, v lies in bin i exactly when i is the floor of (v - lo) / b. */
  lemma BinIndex(v: real, lo: real, b: real, i: nat)
    requires b > 0.0
    ensures (v - (lo + (i as real) * b) >= 0.0 && v - (lo + (i as real) * b) < b) <==> i == ((v - lo) / b).Floor
  {
    var q := (v - lo) / b;
    var d := q - (i as real);
    var e := v - (lo + (i as real) * b);
    DistanceToBinStart(v, lo, b, i as real, q, d);
    assert e == d * b;
    ScaleSign(d, b);
    assert (e >= 0.0 && e < b) <==> (d >= 0.0 && d < 1.0);
    FloorUnique(q, i);
    assert (d >= 0.0 && d < 1.0) <==> ((i as real) <= q && q < (i as real) + 1.0);
  }

  lemma DistanceToBinStart(v: real, lo: real, b: real, ir: real, q: real, d: real)
    requires b > 0.0 && q == (v - lo) / b && d == q - ir
    ensures v - (lo + ir * b) == d * b
  {
    assert q * b == v - lo;
  }

  lemma FloorUnique(q: real, i: int)
    ensures ((i as real) <= q && q < (i as real) + 1.0) <==> i == q.Floor
  {
  }

  /** Multiplying by a positive b keeps the comparisons with 0 and 1. */
  lemma ScaleSign(d: real, b: real)
    requires b > 0.0
    ensures d * b >= 0.0 <==> d >= 0.0
    ensures d * b < b <==> d < 1.0
  {
    assert d * b - b == (d - 1.0) * b;
    if d >= 0.0 { assert d * b >= 0.0; } else { assert d * b < 0.0; }
    if d < 1.0 { assert (d - 1.0) * b < 0.0; } else { assert (d - 1.0) * b >= 0.0; }
  }

  lemma {:induction false} HitsOfRegularBins(v: real, lo: real, b: real, starts: seq<real>, m: nat)
    requires b > 0.0 && m <= |starts|
    requires forall i :: 0 <= i < |starts| ==> starts[i] == lo + (i as real) * b
    ensures Hits(v, starts, m, b) == if 0 <= ((v - lo) / b).Floor < m then 1 else 0
  {
    if m > 0 {
      HitsOfRegularBins(v, lo, b, starts, m - 1);
      BinIndex(v, lo, b, m - 1);
    }
  }

  /** The bin index of v >= lo: a natural number whose bin starts at or below v. */
  lemma FloorBin(v: real, lo: real, b: real) returns (f: nat)
    requires b > 0.0 && lo <= v
    ensures f == ((v - lo) / b).Floor
    ensures lo + (f as real) * b <= v
  {
    var q := (v - lo) / b;
    assert q * b == v - lo;
    ScaleSign(q, b);
    f := q.Floor;
    ScaleSign(q - f as real, b);
    assert (q - f as real) * b == v - (lo + (f as real) * b);
  }

  /** Every coordinate of the data falls in exactly one of the bins np.arange builds. */
  lemma InExactlyOneBin(cs: seq<real>, b: real, k: nat)
    requires |cs| > 0 && b > 0.0 && k < |cs|
    ensures Hits(cs[k], BinStarts(cs, b), |BinStarts(cs, b)|, b) == 1
  {
    var lo, hi := Min(cs), Max(cs);
    var starts := BinStarts(cs, b);
    var v := cs[k];
    assert lo <= v <= hi;
    var f := FloorBin(v, lo, b);
    ArangeMember(lo, hi + b, b, f);
    assert f < |starts|;
    forall i | 0 <= i < |starts| ensures starts[i] == lo + (i as real) * b {
      ArangeMember(lo, hi + b, b, i);
    }
    HitsOfRegularBins(v, lo, b, starts, |starts|);
  }

  /** For a positive bin size every sample lies in exactly one grid cell, so the per-cell
      counts add up to the number of samples. */
  lemma EverySampleCountedOnce(xs: seq<real>, ys: seq<real>, ms: seq<real>, b: real)
    requires |xs| == |ys| == |ms| > 0 && b > 0.0
    ensures forall k :: 0 <= k < |xs| ==>
              Hits(xs[k], BinStarts(xs, b), |BinStarts(xs, b)|, b) == 1 &&
              Hits(ys[k], BinStarts(ys, b), |BinStarts(ys, b)|, b) == 1
    ensures GridCount(xs, ys, |xs|, BinStarts(xs, b), BinStarts(ys, b), |BinStarts(ys, b)|, b) == |xs|
  {
    forall k | 0 <= k < |xs|
      ensures Hits(xs[k], BinStarts(xs, b), |BinStarts(xs, b)|, b) == 1
      ensures Hits(ys[k], BinStarts(ys, b), |BinStarts(ys, b)|, b) == 1
    {
      InExactlyOneBin(xs, b, k);
      InExactlyOneBin(ys, b, k);
    }
    GridCountAll(xs, ys, |xs|, BinStarts(xs, b), BinStarts(ys, b), b);
  }

  // ---------------------------------------------------------------------------
  // MetricsMap

  class MetricsMap {
    var metrics: seq<real>
    var coords: seq<Coord>
    var mapsList: seq<MapEntry>

    /** Keeps each distinct coordinate once, in order of first occurrence, and pairs the
        k-th of them with metrics[k]; the metrics are not filtered alongside, and the
        pairing stops at the shorter of the two. */
    constructor (metrics: seq<real>, coords: seq<Coord>)
      ensures this.metrics == metrics
      ensures this.coords == Dedup(coords)
      ensures |mapsList| == if |Dedup(coords)| < |metrics| then |Dedup(coords)| else |metrics|
      ensures forall k :: 0 <= k < |mapsList| ==> mapsList[k] == MapEntry(Dedup(coords)[k], metrics[k])
    {
      this.metrics := metrics;
      var unique := Dedup(coords);
      this.coords := unique;
      var n := if |unique| < |metrics| then |unique| else |metrics|;
      mapsList := seq(n, k requires 0 <= k < n => MapEntry(unique[k], metrics[k]));
    }

    /** Extends this map's rows with the other map's rows, without deduplicating. */
    method Append(other: MetricsMap)
      modifies this
      ensures mapsList == old(mapsList) + old(other.mapsList)
      ensures metrics == old(metrics) && coords == old(coords)
      ensures other != this ==> unchanged(other)
    {
      mapsList := mapsList + other.mapsList;
    }

    /** construct_map without the plotting: the binned grid and the extent handed to the
        renderer, or the error NumPy raises. */
    method ConstructMap(binSize: real) returns (r: Result<MapGrid, MapError>)
      ensures r.Failure? <==> |mapsList| == 0 || binSize == 0.0
      ensures r.Failure? ==> r.error == if |mapsList| == 0 then EmptyMap else ZeroBinSize
      ensures r.Success? ==>
                var (xs, ys, ms) := SplitResult(mapsList);
                && fresh(r.value.cells)
                && IsMetricsMap(r.value.cells, xs, ys, ms, binSize)
                && MapExtent(mapsList) == Some(r.value.extent)
    {
      if |mapsList| == 0 {
        return Failure(EmptyMap);
      }
      if binSize == 0.0 {
        return Failure(ZeroBinSize);
      }
      var (xs, ys, ms) := SplitResult(mapsList);
      var cells := ConstructMetricsMap(xs, ys, ms, binSize);
      var extent := MapExtent(mapsList);
      r := Success(MapGrid(cells, extent.value));
    }
  }

  /** The first-occurrence deduplication pairs metrics by position: with coordinates
      (0,0), (0,0), (1,1) and metrics 10, 20, 30, the map keeps (0,0) with 10 and
      (1,1) with 20. */
  method PositionalPairingExample() returns (m: MetricsMap)
    ensures m.mapsList == [MapEntry(Coord(0.0, 0.0), 10.0), MapEntry(Coord(1.0, 1.0), 20.0)]
  {
    var a, b := Coord(0.0, 0.0), Coord(1.0, 1.0);
    assert Dedup([a, a, b]) == [a, b] by {
      assert [a, a, b][..2] == [a, a];
      assert [a, a][..1] == [a];
      assert [a][..0] == [];
    }
    m := new MetricsMap([10.0, 20.0, 30.0], [a, a, b]);
  }
}
