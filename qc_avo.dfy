/** update_avo_params: one row of per-offset-bin amplitude statistics per gather,
    appended to the rows of earlier batches. */
module QcAvo {
  import opened Wrappers
  import opened ArrayOps
  import QcText
  import SeismicMetrics

  /** bin_size: an integer bin width, or an array of bin edges. */
  datatype BinSpec = Width(width: int) | Edges(edges: seq<real>)

  /** A window of sample indices; both ends are included. The window argument is
      described as an interval in ms, but it slices the sample axis, so it holds indices. */
  datatype Window = Window(first: int, last: int)

  /** One gather of the batch: its traces (one row of amplitudes per trace) in index
      order, the offsets of those traces, and the inline and crossline of its first trace. */
  datatype Gather = Gather(traces: seq<seq<real>>, offsets: seq<real>, inline: int, crossline: int)

  /** horizon_window: described as an int or an array-like of length 2. Only a sequence of
      two values unpacks into lower_bound, upper_bound. */
  datatype HorizonWindow = Scalar(value: int) | Bounds(values: seq<real>)

  predicate Unpacks(hw: HorizonWindow)
  {
    hw.Bounds? && |hw.values| == 2
  }

  /** The arguments of update_avo_params that stay the same for every gather. */
  datatype AvoSetup = AvoSetup(
    samples: seq<real>,
    binSpec: BinSpec,
    storageSize: nat,
    window: Option<Window>,
    horizon: Option<seq<QcText.HorizonEntry>>,
    horizonWindow: HorizonWindow)

  datatype AvoError =
    | ShortSampleAxis   // np.diff(samples[:2])[0] on fewer than two samples
    | EmptyGather       // iloc[0] or offset[-1] of a gather without traces
    | HorizonMissing    // no horizon row for the gather's crossline and inline
    | WindowUnpack      // lower_bound, upper_bound = horizon_window on an int or a length other than 2
    | ZeroTimeStep      // two equal first samples: the window divides by zero
    | NoWindow          // window[0] on None: no horizon and no window given
    | ZeroBinWidth      // np.arange with step 0
    | TooManyBins       // storage[i] beyond storage_size
    | ParamsWidth       // np.append of a row to earlier rows of another width

  /** calc_method: aggregates the masked amplitudes of one bin; None stands for NaN. */
  type Aggregate = seq<seq<Option<real>>> -> Option<real>

  // ---------------------------------------------------------------------------
  // The sample window

  predicate AtTrace(e: QcText.HorizonEntry, crossline: int, inline: int)
  {
    e.crossline == crossline && e.inline == inline
  }

  /** horizon[(CROSSLINE_3D == crossline) & (INLINE_3D == inline)]['time'].iloc[0]. */
  function HorizonTime(h: seq<QcText.HorizonEntry>, crossline: int, inline: int): (r: Option<real>)
    ensures r.None? <==> forall k :: 0 <= k < |h| ==> !AtTrace(h[k], crossline, inline)
    ensures r.Some? ==> exists k :: 0 <= k < |h| && AtTrace(h[k], crossline, inline) && h[k].time == r.value &&
                                    forall j :: 0 <= j < k ==> !AtTrace(h[j], crossline, inline)
  {
    if |h| == 0 then None
    else if AtTrace(h[0], crossline, inline) then Some(h[0].time)
    else
      var r := HorizonTime(h[1..], crossline, inline);
      assert forall k :: 1 <= k < |h| ==> h[k] == h[1..][k - 1];
      if r.Some? then
        var k :| 0 <= k < |h[1..]| && AtTrace(h[1..][k], crossline, inline) && h[1..][k].time == r.value &&
                 forall j :: 0 <= j < k ==> !AtTrace(h[1..][j], crossline, inline);
        assert forall j :: 0 <= j < k + 1 ==> !AtTrace(h[j], crossline, inline) by {
          forall j | 0 <= j < k + 1 ensures !AtTrace(h[j], crossline, inline) {
            if j > 0 {
              assert h[j] == h[1..][j - 1];
            }
          }
        }
        r
      else r
  }

  /** The sample index of time t: t / t_step cast to an integer, clipped to [0, n]. */
  function SampleIndex(t: real, tStep: real, n: nat): (i: int)
    requires tStep != 0.0
    ensures 0 <= i <= n
    ensures 0 <= Trunc(t / tStep) <= n ==> i == Trunc(t / tStep)
    ensures Trunc(t / tStep) < 0 ==> i == 0
    ensures n < Trunc(t / tStep) ==> i == n
  {
    Clip(Trunc(t / tStep), 0, n)
  }

  /** The window a gather's bins are cut to: the horizon-relative one when a horizon is
      given, otherwise the window argument as it is. */
  function GatherWindow(g: Gather, setup: AvoSetup): (r: Result<Option<Window>, AvoError>)
    ensures r.Success? && setup.horizon.None? ==> r.value == setup.window
    ensures r.Success? && setup.horizon.Some? ==>
              r.value.Some? &&
              0 <= r.value.value.first <= |setup.samples| && 0 <= r.value.value.last <= |setup.samples|
    ensures r.Success? && setup.horizon.Some? ==>
              |setup.samples| >= 2 &&
              var n := |setup.samples|;
              var tStep := setup.samples[1] - setup.samples[0];
              var t := HorizonTime(setup.horizon.value, g.crossline, g.inline);
              var hw := setup.horizonWindow;
              tStep != 0.0 && t.Some? && Unpacks(hw) &&
              r.value == Some(Window(SampleIndex(t.value - hw.values[0], tStep, n),
                                     SampleIndex(t.value + hw.values[1], tStep, n)))
    ensures r.Failure? ==> r.error in {ShortSampleAxis, EmptyGather, HorizonMissing, WindowUnpack, ZeroTimeStep}
    ensures r == Failure(ShortSampleAxis) <==> |setup.samples| < 2
    ensures r == Failure(EmptyGather) <==>
              |setup.samples| >= 2 && setup.horizon.Some? && |g.offsets| == 0
    ensures r == Failure(HorizonMissing) <==>
              |setup.samples| >= 2 && setup.horizon.Some? && |g.offsets| > 0 &&
              HorizonTime(setup.horizon.value, g.crossline, g.inline).None?
    ensures r == Failure(WindowUnpack) <==>
              |setup.samples| >= 2 && setup.horizon.Some? && |g.offsets| > 0 &&
              HorizonTime(setup.horizon.value, g.crossline, g.inline).Some? &&
              !Unpacks(setup.horizonWindow)
    ensures r == Failure(ZeroTimeStep) <==>
              |setup.samples| >= 2 && setup.horizon.Some? && |g.offsets| > 0 &&
              HorizonTime(setup.horizon.value, g.crossline, g.inline).Some? &&
              Unpacks(setup.horizonWindow) && setup.samples[1] - setup.samples[0] == 0.0
  {
    if |setup.samples| < 2 then Failure(ShortSampleAxis)
    else
      var tStep := setup.samples[1] - setup.samples[0];
      match setup.horizon
      case None => Success(setup.window)
      case Some(h) =>
        if |g.offsets| == 0 then Failure(EmptyGather)
        else
          match HorizonTime(h, g.crossline, g.inline)
          case None => Failure(HorizonMissing)
          case Some(t) =>
            if !Unpacks(setup.horizonWindow) then Failure(WindowUnpack)
            else if tStep == 0.0 then Failure(ZeroTimeStep)
            else
              var lower, upper := setup.horizonWindow.values[0], setup.horizonWindow.values[1];
              var n := |setup.samples|;
              Success(Some(Window(SampleIndex(t - lower, tStep, n), SampleIndex(t + upper, tStep, n))))
  }

  /** With a positive time step and non-negative bounds, the window is not empty and holds
      the sample of the horizon time itself. */
  lemma WindowAroundHorizon(t: real, lower: real, upper: real, tStep: real, n: nat)
    requires tStep > 0.0 && lower >= 0.0 && upper >= 0.0
    ensures SampleIndex(t - lower, tStep, n) <= SampleIndex(t, tStep, n) <= SampleIndex(t + upper, tStep, n)
  {
    assert (t - lower) / tStep <= t / tStep <= (t + upper) / tStep by {
      assert (t - lower) / tStep == t / tStep - lower / tStep;
      assert (t + upper) / tStep == t / tStep + upper / tStep;
    }
    TruncMonotone((t - lower) / tStep, t / tStep);
    TruncMonotone(t / tStep, (t + upper) / tStep);
  }

  /** The cast towards zero never decreases as its argument grows. */
  lemma TruncMonotone(a: real, b: real)
    requires a <= b
    ensures Trunc(a) <= Trunc(b)
  {
    if 0.0 <= a {
      assert a.Floor <= b.Floor;
    } else if b < 0.0 {
      assert (-b).Floor <= (-a).Floor;
    }
  }

  /** A gather under a horizon gets a window that spans the horizon time's own sample,
      whenever the samples rise and the bounds are not negative. */
  lemma GatherWindowSpansHorizon(g: Gather, setup: AvoSetup)
    requires GatherWindow(g, setup).Success? && setup.horizon.Some?
    requires setup.samples[1] > setup.samples[0]
    requires setup.horizonWindow.values[0] >= 0.0 && setup.horizonWindow.values[1] >= 0.0
    ensures var tStep := setup.samples[1] - setup.samples[0];
            var t := HorizonTime(setup.horizon.value, g.crossline, g.inline).value;
            var w := GatherWindow(g, setup).value.value;
            w.first <= SampleIndex(t, tStep, |setup.samples|) <= w.last
  {
    var tStep := setup.samples[1] - setup.samples[0];
    var t := HorizonTime(setup.horizon.value, g.crossline, g.inline).value;
    WindowAroundHorizon(t, setup.horizonWindow.values[0], setup.horizonWindow.values[1], tStep, |setup.samples|);
  }

  // ---------------------------------------------------------------------------
  // Offset bins

  /** The elements of es below m, in order: bin_size[bin_size < offset[-1]]. */
  function Below(es: seq<real>, m: real): (r: seq<real>)
    ensures |r| <= |es|
    ensures forall k :: 0 <= k < |r| ==> r[k] < m
    ensures forall x :: x in r <==> x in es && x < m
  {
    if |es| == 0 then []
    else
      var p := Below(es[..|es| - 1], m);
      assert es == es[..|es| - 1] + [es[|es| - 1]];
      if es[|es| - 1] < m then p + [es[|es| - 1]] else p
  }

  /** The filter distributes over concatenation: the kept edges keep their order. */
  lemma {:induction false} BelowConcat(a: seq<real>, b: seq<real>, m: real)
    ensures Below(a + b, m) == Below(a, m) + Below(b, m)
  {
    if |b| > 0 {
      var n := |b| - 1;
      BelowConcat(a, b[..n], m);
      assert (a + b)[..|a + b| - 1] == a + b[..n];
    } else {
      assert a + b == a;
    }
  }

  /** One edge is kept exactly when it is below m. */
  lemma BelowSingle(x: real, m: real)
    ensures Below([x], m) == if x < m then [x] else []
  {
    assert [x][..0] == [];
  }

  /** step_list: the bin edges for the largest offset m. */
  function Steps(spec: BinSpec, m: real): (r: Result<seq<real>, AvoError>)
    ensures r.Failure? <==> spec.Width? && spec.width == 0
    ensures r.Success? && spec.Edges? ==>
              |r.value| >= 1 && r.value[|r.value| - 1] == m + 1.0 &&
              r.value[..|r.value| - 1] == Below(spec.edges, m)
  {
    match spec
    case Width(b) =>
      if b == 0 then Failure(ZeroBinWidth) else Success(Arange(0.0, m + (b as real), b as real))
    case Edges(es) =>
      var r := Below(es, m) + [m + 1.0];
      assert r[..|r| - 1] == Below(es, m);
      Success(r)
  }

  /** Number of bins the edges delimit. */
  function BinCount(steps: seq<real>): nat
  {
    if |steps| == 0 then 0 else |steps| - 1
  }

  /** field[(offset >= lo) & (offset < hi)]: the rows whose offset, at the same position,
      lies in [lo, hi), in order. */
  function SelectRows(traces: seq<seq<real>>, offsets: seq<real>, lo: real, hi: real): (r: seq<seq<real>>)
    requires |traces| == |offsets|
    ensures |r| <= |traces|
    ensures forall k :: 0 <= k < |traces| && lo <= offsets[k] < hi ==> traces[k] in r
  {
    if |traces| == 0 then []
    else
      var n := |traces| - 1;
      var p := SelectRows(traces[..n], offsets[..n], lo, hi);
      assert forall k :: 0 <= k < n ==> traces[..n][k] == traces[k] && offsets[..n][k] == offsets[k];
      if lo <= offsets[n] < hi then p + [traces[n]] else p
  }

  /** The selection distributes over concatenation: the selected rows keep their order. */
  lemma {:induction false} SelectRowsConcat(t1: seq<seq<real>>, o1: seq<real>, t2: seq<seq<real>>, o2: seq<real>,
                                            lo: real, hi: real)
    requires |t1| == |o1| && |t2| == |o2|
    ensures SelectRows(t1 + t2, o1 + o2, lo, hi) == SelectRows(t1, o1, lo, hi) + SelectRows(t2, o2, lo, hi)
  {
    if |t2| > 0 {
      var n := |t2| - 1;
      SelectRowsConcat(t1, o1, t2[..n], o2[..n], lo, hi);
      assert (t1 + t2)[..|t1 + t2| - 1] == t1 + t2[..n];
      assert (o1 + o2)[..|o1 + o2| - 1] == o1 + o2[..n];
    } else {
      assert t1 + t2 == t1 && o1 + o2 == o1;
    }
  }

  /** One row is selected exactly when its offset lies in [lo, hi). */
  lemma SelectRowsSingle(t: seq<real>, o: real, lo: real, hi: real)
    ensures SelectRows([t], [o], lo, hi) == if lo <= o < hi then [t] else []
  {
    assert [t][..0] == [] && [o][..0] == [];
  }

  /** Every selected row is the trace at some position whose offset lies in [lo, hi). */
  lemma {:induction false} SelectRowsQualify(traces: seq<seq<real>>, offsets: seq<real>, lo: real, hi: real)
    requires |traces| == |offsets|
    ensures forall x :: x in SelectRows(traces, offsets, lo, hi) ==>
              exists k :: 0 <= k < |traces| && lo <= offsets[k] < hi && traces[k] == x
  {
    if |traces| > 0 {
      var n := |traces| - 1;
      SelectRowsQualify(traces[..n], offsets[..n], lo, hi);
      forall x | x in SelectRows(traces, offsets, lo, hi)
        ensures exists k :: 0 <= k < |traces| && lo <= offsets[k] < hi && traces[k] == x
      {
        if x in SelectRows(traces[..n], offsets[..n], lo, hi) {
          var k :| 0 <= k < n && lo <= offsets[..n][k] < hi && traces[..n][k] == x;
          assert traces[k] == x && offsets[k] == offsets[..n][k];
        } else {
          assert lo <= offsets[n] < hi && traces[n] == x;
        }
      }
    }
  }

  /** subfield.size == 0. */
  predicate NoAmplitudes(rows: seq<seq<real>>)
  {
    forall k :: 0 <= k < |rows| ==> |rows[k]| == 0
  }

  /** subfield[:, lo:hi]. */
  function SliceColumns(rows: seq<seq<real>>, lo: int, hi: int): (r: seq<seq<real>>)
    ensures |r| == |rows|
    ensures forall k :: 0 <= k < |r| ==> r[k] == PySlice(rows[k], lo, hi)
  {
    seq(|rows|, k requires 0 <= k < |rows| => PySlice(rows[k], lo, hi))
  }

  /** subfield[subfield == 0] = np.nan. */
  function Masked(rows: seq<seq<real>>): (r: seq<seq<Option<real>>>)
    ensures |r| == |rows|
    ensures forall k :: 0 <= k < |r| ==> |r[k]| == |rows[k]|
    ensures forall k, c :: 0 <= k < |r| && 0 <= c < |r[k]| ==>
              (r[k][c].None? <==> rows[k][c] == 0.0) && (r[k][c].Some? ==> r[k][c].value == rows[k][c])
  {
    seq(|rows|, k requires 0 <= k < |rows| => MaskZeros(rows[k]))
  }

  /** The value stored for bin i, whose traces are sel. */
  function BinOutcome(sel: seq<seq<real>>, w: Option<Window>, agg: Aggregate, size: nat, i: nat): (r: Result<real, AvoError>)
    ensures r.Failure? ==> r.error in {NoWindow, TooManyBins}
    ensures r == Failure(NoWindow) <==> !NoAmplitudes(sel) && w.None?
    ensures r == Failure(TooManyBins) <==> size <= i && (NoAmplitudes(sel) || w.Some?)
    ensures r.Success? && NoAmplitudes(sel) ==> r.value == 0.0
    ensures r.Success? && !NoAmplitudes(sel) ==>
              w.Some? && r.value == NanToNum(agg(Masked(SliceColumns(sel, w.value.first, w.value.last + 1))))
  {
    if NoAmplitudes(sel) then (if i < size then Success(0.0) else Failure(TooManyBins))
    else if w.None? then Failure(NoWindow)
    else
      var v := NanToNum(agg(Masked(SliceColumns(sel, w.value.first, w.value.last + 1))));
      if i < size then Success(v) else Failure(TooManyBins)
  }

  /** The traces of bin i. */
  function BinRows(traces: seq<seq<real>>, sorted: seq<real>, steps: seq<real>, i: nat): seq<seq<real>>
    requires |traces| == |sorted| && i + 1 < |steps|
  {
    SelectRows(traces, sorted, steps[i], steps[i + 1])
  }

  /** The values of the first n bins, or the error of the first bin that raises. */
  function BinValues(traces: seq<seq<real>>, sorted: seq<real>, steps: seq<real>, w: Option<Window>,
                     agg: Aggregate, size: nat, n: nat): (r: Result<seq<real>, AvoError>)
    requires |traces| == |sorted| && n <= BinCount(steps)
    ensures r.Success? ==> |r.value| == n <= size
  {
    if n == 0 then Success([])
    else
      var prefix :- BinValues(traces, sorted, steps, w, agg, size, n - 1);
      var v :- BinOutcome(BinRows(traces, sorted, steps, n - 1), w, agg, size, n - 1);
      Success(prefix + [v])
  }

  function Zeros(n: nat): (r: seq<real>)
    ensures |r| == n && forall k :: 0 <= k < n ==> r[k] == 0.0
  {
    seq(n, _ => 0.0)
  }

  /** The storage row of one gather: the bin values, then zeros up to storage_size. */
  function StorageRow(traces: seq<seq<real>>, sorted: seq<real>, steps: seq<real>, w: Option<Window>,
                      agg: Aggregate, size: nat): (r: Result<seq<real>, AvoError>)
    requires |traces| == |sorted|
    ensures r.Success? ==> |r.value| == size
  {
    var values :- BinValues(traces, sorted, steps, w, agg, size, BinCount(steps));
    Success(values + Zeros(size - BinCount(steps)))
  }

  /** The row update_avo_params appends for one gather. Offsets are sorted, but the
      traces are not reordered with them. */
  function GatherRow(g: Gather, setup: AvoSetup, agg: Aggregate): (r: Result<seq<real>, AvoError>)
    requires |g.traces| == |g.offsets|
    ensures r.Success? ==> |r.value| == setup.storageSize
  {
    var w :- GatherWindow(g, setup);
    if |g.offsets| == 0 then Failure(EmptyGather)
    else
      var sorted := Sort(g.offsets);
      var steps :- Steps(setup.binSpec, sorted[|sorted| - 1]);
      StorageRow(g.traces, sorted, steps, w, agg, setup.storageSize)
  }

  predicate Consistent(gathers: seq<Gather>)
  {
    forall k :: 0 <= k < |gathers| ==> |gathers[k].traces| == |gathers[k].offsets|
  }

  /** The outcome of each gather, in batch order. */
  function RowResults(gathers: seq<Gather>, setup: AvoSetup, agg: Aggregate): (r: seq<Result<seq<real>, AvoError>>)
    requires Consistent(gathers)
    ensures |r| == |gathers|
    ensures forall k :: 0 <= k < |r| ==> r[k] == GatherRow(gathers[k], setup, agg)
  {
    seq(|gathers|, k requires 0 <= k < |gathers| => GatherRow(gathers[k], setup, agg))
  }

  /** Every row of p has w entries: the rows can be stacked with a row of width w. */
  predicate RowsOfWidth(p: seq<seq<real>>, w: nat)
  {
    forall k :: 0 <= k < |p| ==> |p[k]| == w
  }

  /** The rows params holds; None (no earlier batch) holds none. */
  function Rows(params: Option<seq<seq<real>>>): (r: seq<seq<real>>)
    ensures params.Some? ==> r == params.value
    ensures params.None? ==> r == []
  {
    params.GetOr([])
  }

  /** params after one outcome per gather: np.array([storage]) when params is None,
      np.append(params, [storage], axis=0) otherwise, or the first error raised, either by
      a gather or by np.append on rows of another width. */
  function Appended(params: Option<seq<seq<real>>>, rows: seq<Result<seq<real>, AvoError>>)
    : (r: Result<Option<seq<seq<real>>>, AvoError>)
    ensures |rows| == 0 ==> r == Success(params)
    ensures r.Success? ==> |Rows(r.value)| == |Rows(params)| + |rows|
    ensures r.Success? ==> (r.value.None? <==> params.None? && |rows| == 0)
  {
    if |rows| == 0 then Success(params)
    else
      var prev :- Appended(params, rows[..|rows| - 1]);
      var row :- rows[|rows| - 1];
      match prev
      case None => Success(Some([row]))
      case Some(p) => if RowsOfWidth(p, |row|) then Success(Some(p + [row])) else Failure(ParamsWidth)
  }

  /** update_avo_params. */
  function AvoParams(params: Option<seq<seq<real>>>, gathers: seq<Gather>, setup: AvoSetup, agg: Aggregate)
    : (r: Result<Option<seq<seq<real>>>, AvoError>)
    requires Consistent(gathers)
    ensures |gathers| == 0 ==> r == Success(params)
    ensures r.Success? ==> |Rows(r.value)| == |Rows(params)| + |gathers|
    ensures r.Success? ==> (r.value.None? <==> params.None? && |gathers| == 0)
  {
    Appended(params, RowResults(gathers, setup, agg))
  }

  // ---------------------------------------------------------------------------
  // The loops

  /** Fills a zero-initialised storage of size entries bin by bin. */
  method FillStorage(traces: seq<seq<real>>, sorted: seq<real>, steps: seq<real>, w: Option<Window>,
                     agg: Aggregate, size: nat) returns (r: Result<seq<real>, AvoError>)
    requires |traces| == |sorted|
    ensures r == StorageRow(traces, sorted, steps, w, agg, size)
  {
    var storage := new real[size](_ => 0.0);
    var nb := BinCount(steps);
    var i := 0;
    while i < nb
      invariant 0 <= i <= nb && i <= size
      invariant BinValues(traces, sorted, steps, w, agg, size, i) == Success(storage[..i])
      invariant forall k :: i <= k < size ==> storage[k] == 0.0
    {
      var sel := SelectRows(traces, sorted, steps[i], steps[i + 1]);
      var outcome := BinOutcome(sel, w, agg, size, i);
      if outcome.Failure? {
        StorageRowFailure(traces, sorted, steps, w, agg, size, i, outcome.error);
        return Failure(outcome.error);
      }
      var v := outcome.value;
      BinValuesSnoc(traces, sorted, steps, w, agg, size, i, v);
      ghost var before := storage[..];
      storage[i] := v;
      assert storage[..i + 1] == storage[..i] + [v] by {
        assert storage[..i] == before[..i];
      }
      i := i + 1;
    }
    assert storage[..] == storage[..nb] + Zeros(size - nb);
    r := Success(storage[..]);
  }

  /** A bin whose outcome is v extends the values of the bins before it by v. */
  lemma BinValuesSnoc(traces: seq<seq<real>>, sorted: seq<real>, steps: seq<real>, w: Option<Window>,
                      agg: Aggregate, size: nat, i: nat, v: real)
    requires |traces| == |sorted| && i < BinCount(steps)
    requires BinValues(traces, sorted, steps, w, agg, size, i).Success?
    requires BinOutcome(BinRows(traces, sorted, steps, i), w, agg, size, i) == Success(v)
    ensures BinValues(traces, sorted, steps, w, agg, size, i + 1) ==
            Success(BinValues(traces, sorted, steps, w, agg, size, i).value + [v])
  {
  }

  /** A bin that raises makes the whole storage row fail with its error. */
  lemma StorageRowFailure(traces: seq<seq<real>>, sorted: seq<real>, steps: seq<real>, w: Option<Window>,
                          agg: Aggregate, size: nat, i: nat, e: AvoError)
    requires |traces| == |sorted| && i < BinCount(steps)
    requires BinValues(traces, sorted, steps, w, agg, size, i).Success?
    requires BinOutcome(BinRows(traces, sorted, steps, i), w, agg, size, i) == Failure(e)
    ensures StorageRow(traces, sorted, steps, w, agg, size) == Failure(e)
  {
    assert BinValues(traces, sorted, steps, w, agg, size, i + 1) == Failure(e);
    BinValuesFailure(traces, sorted, steps, w, agg, size, i + 1, BinCount(steps));
  }

  /** One gather: window, edges, then the storage row. */
  method GatherStorage(g: Gather, setup: AvoSetup, agg: Aggregate) returns (r: Result<seq<real>, AvoError>)
    requires |g.traces| == |g.offsets|
    ensures r == GatherRow(g, setup, agg)
  {
    var w := GatherWindow(g, setup);
    if w.Failure? {
      return Failure(w.error);
    }
    if |g.offsets| == 0 {
      return Failure(EmptyGather);
    }
    var sorted := Sort(g.offsets);
    var steps := Steps(setup.binSpec, sorted[|sorted| - 1]);
    if steps.Failure? {
      return Failure(steps.error);
    }
    r := FillStorage(g.traces, sorted, steps.value, w.value, agg, setup.storageSize);
  }

  /** update_avo_params: appends one storage row per gather. */
  method UpdateAvoParams(params: Option<seq<seq<real>>>, gathers: seq<Gather>, setup: AvoSetup, agg: Aggregate)
      returns (r: Result<Option<seq<seq<real>>>, AvoError>)
    requires Consistent(gathers)
    ensures r == AvoParams(params, gathers, setup, agg)
  {
    ghost var results := RowResults(gathers, setup, agg);
    var rows := params;
    var i := 0;
    while i < |gathers|
      invariant 0 <= i <= |gathers|
      invariant Appended(params, results[..i]) == Success(rows)
    {
      assert results[..i + 1][..i] == results[..i];
      var row := GatherStorage(gathers[i], setup, agg);
      if row.Failure? {
        assert Appended(params, results[..i + 1]) == Failure(row.error);
        AppendedFailure(params, results, i + 1);
        return Failure(row.error);
      }
      if rows.None? {
        rows := Some([row.value]);
      } else if RowsOfWidth(rows.value, |row.value|) {
        rows := Some(rows.value + [row.value]);
      } else {
        assert Appended(params, results[..i + 1]) == Failure(ParamsWidth);
        AppendedFailure(params, results, i + 1);
        return Failure(ParamsWidth);
      }
      i := i + 1;
    }
    assert results[..i] == results;
    r := Success(rows);
  }

  // ---------------------------------------------------------------------------
  // Properties

  /** Once the first n bins fail, so do the first m >= n with the same error. */
  lemma {:induction false} BinValuesFailure(traces: seq<seq<real>>, sorted: seq<real>, steps: seq<real>, w: Option<Window>,
                                            agg: Aggregate, size: nat, n: nat, m: nat)
    requires |traces| == |sorted| && n <= m <= BinCount(steps)
    requires BinValues(traces, sorted, steps, w, agg, size, n).Failure?
    ensures BinValues(traces, sorted, steps, w, agg, size, m) == BinValues(traces, sorted, steps, w, agg, size, n)
  {
    if n < m {
      BinValuesFailure(traces, sorted, steps, w, agg, size, n, m - 1);
    }
  }

  /** Once the first n outcomes hold an error, the whole call fails with the same error. */
  lemma {:induction false} AppendedFailure(params: Option<seq<seq<real>>>, rows: seq<Result<seq<real>, AvoError>>, n: nat)
    requires n <= |rows|
    requires Appended(params, rows[..n]).Failure?
    ensures Appended(params, rows) == Appended(params, rows[..n])
  {
    if n < |rows| {
      var init := rows[..|rows| - 1];
      assert init[..n] == rows[..n];
      AppendedFailure(params, init, n);
    } else {
      assert rows[..n] == rows;
    }
  }

  /** With every outcome that is a row w entries wide, appending succeeds exactly when
      every outcome is a row and the earlier rows, if any, are w wide too. */
  lemma {:induction false} AppendedSuccess(params: Option<seq<seq<real>>>, rows: seq<Result<seq<real>, AvoError>>, w: nat)
    requires forall k :: 0 <= k < |rows| && rows[k].Success? ==> |rows[k].value| == w
    ensures Appended(params, rows).Success? <==>
              (forall k :: 0 <= k < |rows| ==> rows[k].Success?) &&
              (|rows| == 0 || RowsOfWidth(Rows(params), w))
    ensures Appended(params, rows).Success? && |rows| > 0 ==> RowsOfWidth(Rows(Appended(params, rows).value), w)
  {
    if |rows| > 0 {
      var n := |rows| - 1;
      var init := rows[..n];
      assert forall k :: 0 <= k < n ==> init[k] == rows[k];
      AppendedSuccess(params, init, w);
      var prev := Appended(params, init);
      if prev.Success? && rows[n].Success? {
        if n == 0 {
          assert init == [] && prev.value == params;
        }
        if prev.value.Some? {
          var p := prev.value.value;
          if RowsOfWidth(p, w) {
            assert Rows(Appended(params, rows).value) == p + [rows[n].value];
          }
        }
      }
    }
  }

  /** On success, the earlier rows come first, then each outcome's row in order. */
  lemma {:induction false} AppendedRows(params: Option<seq<seq<real>>>, rows: seq<Result<seq<real>, AvoError>>)
    requires Appended(params, rows).Success?
    ensures var r := Rows(Appended(params, rows).value);
            && |r| == |Rows(params)| + |rows|
            && r[..|Rows(params)|] == Rows(params)
            && forall k :: 0 <= k < |rows| ==> rows[k].Success? && r[|Rows(params)| + k] == rows[k].value
  {
    if |rows| > 0 {
      var n := |rows| - 1;
      var init := rows[..n];
      var prev := Rows(Appended(params, init).value);
      AppendedRows(params, init);
      var r := prev + [rows[n].value];
      assert Rows(Appended(params, rows).value) == r;
      assert r[..|Rows(params)|] == prev[..|Rows(params)|];
      forall k | 0 <= k < |rows|
        ensures rows[k].Success? && r[|Rows(params)| + k] == rows[k].value
      {
        if k < n {
          assert init[k] == rows[k];
        }
      }
    }
  }

  /** The call succeeds exactly when every gather's row does and the earlier rows, if any,
      are storage_size wide; it then holds the earlier rows followed by one row of
      storage_size entries per gather, in order, all storage_size wide. */
  lemma AvoParamsRows(params: Option<seq<seq<real>>>, gathers: seq<Gather>, setup: AvoSetup, agg: Aggregate)
    requires Consistent(gathers)
    ensures AvoParams(params, gathers, setup, agg).Success? <==>
              (forall k :: 0 <= k < |gathers| ==> GatherRow(gathers[k], setup, agg).Success?) &&
              (|gathers| == 0 || RowsOfWidth(Rows(params), setup.storageSize))
    ensures AvoParams(params, gathers, setup, agg).Success? ==>
              var r := Rows(AvoParams(params, gathers, setup, agg).value);
              && |r| == |Rows(params)| + |gathers|
              && r[..|Rows(params)|] == Rows(params)
              && (|gathers| > 0 ==> RowsOfWidth(r, setup.storageSize))
              && forall k :: 0 <= k < |gathers| ==> r[|Rows(params)| + k] == GatherRow(gathers[k], setup, agg).value
  {
    var results := RowResults(gathers, setup, agg);
    var a := AvoParams(params, gathers, setup, agg);
    assert a == Appended(params, results);
    AppendedSuccess(params, results, setup.storageSize);
    if a.Success? {
      AppendedRows(params, results);
    }
  }

  /** np.append raises when the first gather's row is not as wide as the earlier rows. */
  lemma AvoParamsWidthError(params: seq<seq<real>>, gathers: seq<Gather>, setup: AvoSetup, agg: Aggregate)
    requires Consistent(gathers) && |gathers| > 0 && GatherRow(gathers[0], setup, agg).Success?
    requires !RowsOfWidth(params, setup.storageSize)
    ensures AvoParams(Some(params), gathers, setup, agg) == Failure(ParamsWidth)
  {
    var results := RowResults(gathers, setup, agg);
    assert results[..1][..0] == [];
    assert Appended(Some(params), results[..1]) == Failure(ParamsWidth);
    AppendedFailure(Some(params), results, 1);
  }

  /** A storage row holds, for every bin, 0 when the bin has no amplitude and otherwise
      calc_method's NaN-to-zero aggregate of the bin's window of amplitudes with zeros
      masked as NaN; the slots past the last bin stay 0. */
  lemma {:induction false} StorageRowContents(traces: seq<seq<real>>, sorted: seq<real>, steps: seq<real>, w: Option<Window>,
                                              agg: Aggregate, size: nat)
    requires |traces| == |sorted|
    requires StorageRow(traces, sorted, steps, w, agg, size).Success?
    ensures var row := StorageRow(traces, sorted, steps, w, agg, size).value;
            |row| == size && BinCount(steps) <= size &&
            (forall i :: BinCount(steps) <= i < size ==> row[i] == 0.0) &&
            forall i :: 0 <= i < BinCount(steps) ==>
              var sel := BinRows(traces, sorted, steps, i);
              && (NoAmplitudes(sel) ==> row[i] == 0.0)
              && (!NoAmplitudes(sel) ==>
                    w.Some? && row[i] == NanToNum(agg(Masked(SliceColumns(sel, w.value.first, w.value.last + 1)))))
  {
    var n := BinCount(steps);
    var values := BinValues(traces, sorted, steps, w, agg, size, n).value;
    var row := StorageRow(traces, sorted, steps, w, agg, size).value;
    assert row == values + Zeros(size - n);
    BinValuesContents(traces, sorted, steps, w, agg, size, n);
    forall i | 0 <= i < n
      ensures BinOutcome(BinRows(traces, sorted, steps, i), w, agg, size, i) == Success(row[i])
    {
      assert row[i] == values[i];
    }
  }

  lemma {:induction false} BinValuesContents(traces: seq<seq<real>>, sorted: seq<real>, steps: seq<real>, w: Option<Window>,
                                             agg: Aggregate, size: nat, n: nat)
    requires |traces| == |sorted| && n <= BinCount(steps)
    requires BinValues(traces, sorted, steps, w, agg, size, n).Success?
    ensures forall i :: 0 <= i < n ==>
              BinOutcome(BinRows(traces, sorted, steps, i), w, agg, size, i) ==
              Success(BinValues(traces, sorted, steps, w, agg, size, n).value[i])
  {
    if n > 0 {
      BinValuesContents(traces, sorted, steps, w, agg, size, n - 1);
    }
  }

  /** The largest offset: the last of the sorted offsets is their maximum. */
  lemma LastSortedIsMax(s: seq<real>)
    requires |s| > 0
    ensures Sort(s)[|s| - 1] == Max(s)
  {
    var t := Sort(s);
    assert Max(s) in multiset(t);
    assert t[|t| - 1] in multiset(s);
  }

  /** Number of bins [steps[i], steps[i + 1]) among the first n that contain o. */
  function BinsHolding(o: real, steps: seq<real>, n: nat): nat
    requires n < |steps| || n == 0
  {
    if n == 0 then 0
    else BinsHolding(o, steps, n - 1) + (if steps[n - 1] <= o < steps[n] then 1 else 0)
  }

  /** With an integer width b > 0 the edges are 0, b, 2b, ... below max + b. */
  lemma WidthEdges(m: real, b: int, k: nat)
    requires b > 0
    ensures var steps := Steps(Width(b), m).value;
            (k < |steps| <==> (k as real) * (b as real) < m + (b as real)) &&
            (k < |steps| ==> steps[k] == (k as real) * (b as real))
  {
    ArangeMember(0.0, m + (b as real), b as real, k);
  }

  lemma {:induction false} BinsHoldingIsHits(o: real, steps: seq<real>, b: real, n: nat)
    requires b > 0.0 && n < |steps|
    requires forall i :: 0 <= i < |steps| ==> steps[i] == (i as real) * b
    ensures BinsHolding(o, steps, n) == SeismicMetrics.Hits(o, steps, n, b)
  {
    if n > 0 {
      BinsHoldingIsHits(o, steps, b, n - 1);
      assert steps[n] == steps[n - 1] + b;
    }
  }

  /** With an integer width b > 0, an offset o >= 0 lies in one bin when o / b rounds
      down below the number of bins, and in none otherwise. */
  lemma WidthBinsHolding(m: real, b: int, o: real)
    requires b > 0
    ensures var steps := Steps(Width(b), m).value;
            BinCount(steps) == 0 || BinsHolding(o, steps, BinCount(steps)) ==
              if 0 <= (o / (b as real)).Floor < BinCount(steps) then 1 else 0
  {
    var steps := Steps(Width(b), m).value;
    var br := b as real;
    if BinCount(steps) > 0 {
      forall i | 0 <= i < |steps| ensures steps[i] == 0.0 + (i as real) * br {
        WidthEdges(m, b, i);
      }
      BinsHoldingIsHits(o, steps, br, BinCount(steps));
      SeismicMetrics.HitsOfRegularBins(o, 0.0, br, steps, BinCount(steps));
    }
  }

  /** With an integer width b > 0 there are ceil(max / b) bins. */
  lemma WidthBinCount(m: real, b: int)
    requires b > 0 && m >= 0.0
    ensures BinCount(Steps(Width(b), m).value) == Ceil(m / (b as real))
  {
    var br := b as real;
    DivAddOne(m, br);
    CeilShift(m / br);
  }

  lemma DivAddOne(m: real, b: real)
    requires b > 0.0
    ensures (m + b) / b == m / b + 1.0
  {
    var x := m / b;
    var y := (m + b) / b;
    var d := y - (x + 1.0);
    assert x * b == m && y * b == m + b;
    assert d * b == y * b - x * b - b;
    assert (-d) * b == -(d * b);
    SeismicMetrics.ScaleSign(d, b);
    SeismicMetrics.ScaleSign(-d, b);
  }

  lemma CeilShift(x: real)
    ensures Ceil(x + 1.0) == Ceil(x) + 1
  {
    var c, d := Ceil(x), Ceil(x + 1.0);
    assert (c as real) - 1.0 < x <= c as real;
    assert (d as real) - 1.0 < x + 1.0 <= d as real;
    assert c < d < c + 2;
  }

  /** Every offset in [0, max) falls in exactly one width bin. */
  lemma OffsetBelowMaxBinnedOnce(m: real, b: int, o: real)
    requires b > 0 && 0.0 <= o < m
    ensures BinsHolding(o, Steps(Width(b), m).value, BinCount(Steps(Width(b), m).value)) == 1
  {
    var br := b as real;
    WidthBinCount(m, b);
    WidthBinsHolding(m, b, o);
    var c := Ceil(m / br);
    DivMonotone(o, m, br);
    assert (o / br).Floor < c;
    assert 0.0 <= o / br;
  }

  lemma DivMonotone(o: real, m: real, b: real)
    requires b > 0.0 && o < m
    ensures o / b < m / b
  {
    assert (m / b - o / b) * b == m - o;
  }

  /** When the largest offset is a multiple m * b of the width, it lies in no bin: the
      traces at the largest offset are left out of every bin. */
  lemma MaxOffsetDropped(mult: nat, b: int)
    requires b > 0
    ensures var m := (mult as real) * (b as real);
            BinsHolding(m, Steps(Width(b), m).value, BinCount(Steps(Width(b), m).value)) == 0
  {
    var m := (mult as real) * (b as real);
    DivOfMultiple(m, mult as real, b as real);
    IntegralRatioDropped(m, b, mult);
  }

  /** An offset m >= 0 with m / b a whole number lies in no width bin. */
  lemma IntegralRatioDropped(m: real, b: int, mult: nat)
    requires b > 0 && m / (b as real) == mult as real
    ensures BinsHolding(m, Steps(Width(b), m).value, BinCount(Steps(Width(b), m).value)) == 0
  {
    var steps := Steps(Width(b), m).value;
    assert m >= 0.0 by {
      if m < 0.0 {
        DivMonotone(m, 0.0, b as real);
      }
    }
    WidthBinCount(m, b);
    assert BinCount(steps) == mult;
    WidthBinsHolding(m, b, m);
  }

  /** With bin edges, the last edge is max + 1, so an offset equal to the largest one
      lands in the last bin when every given edge lies at or below it. */
  lemma EdgesKeepMaxOffset(es: seq<real>, m: real)
    requires forall k :: 0 <= k < |es| ==> es[k] < m
    ensures var steps := Steps(Edges(es), m).value;
            |steps| == |es| + 1 && (|es| > 0 ==> steps[|es| - 1] <= m < steps[|es|])
  {
    BelowAll(es, m);
  }

  /** With bin edges there is a bin exactly when some given edge lies below the largest
      offset m, and then m lands in the last bin, which ends at m + 1. */
  lemma EdgesLastBin(es: seq<real>, m: real)
    ensures var steps := Steps(Edges(es), m).value;
            && (|steps| >= 2 <==> exists k :: 0 <= k < |es| && es[k] < m)
            && (|steps| >= 2 ==> steps[|steps| - 2] <= m < steps[|steps| - 1])
  {
    var steps := Steps(Edges(es), m).value;
    var below := Below(es, m);
    assert steps[..|steps| - 1] == below;
    if exists k :: 0 <= k < |es| && es[k] < m {
      var k :| 0 <= k < |es| && es[k] < m;
      assert es[k] in es;
      assert es[k] in below;
    }
    if |steps| >= 2 {
      assert below[0] in below;
      assert steps[|steps| - 2] == below[|below| - 1];
    }
  }

  lemma {:induction false} BelowAll(es: seq<real>, m: real)
    requires forall k :: 0 <= k < |es| ==> es[k] < m
    ensures Below(es, m) == es
  {
    if |es| > 0 {
      BelowAll(es[..|es| - 1], m);
      assert es[..|es| - 1] + [es[|es| - 1]] == es;
    }
  }

  /** When the offsets are already in ascending order, every trace is binned by its own
      offset. */
  lemma SortedOffsetsSelectOwnTraces(g: Gather, lo: real, hi: real)
    requires |g.traces| == |g.offsets| && Sorted(g.offsets)
    ensures SelectRows(g.traces, Sort(g.offsets), lo, hi) == SelectRows(g.traces, g.offsets, lo, hi)
  {
    SortSorted(g.offsets);
  }

  /** Otherwise a trace can be binned by another trace's offset: with offsets [200, 100],
      the bin [0, 150) receives the trace at offset 200. */
  lemma UnsortedOffsetsSwapTraces()
    ensures SelectRows([[1.0], [2.0]], Sort([200.0, 100.0]), 0.0, 150.0) == [[1.0]]
    ensures SelectRows([[1.0], [2.0]], [200.0, 100.0], 0.0, 150.0) == [[2.0]]
  {
    var s := Sort([200.0, 100.0]);
    assert multiset(s) == multiset{200.0, 100.0};
    assert s[0] in multiset(s) && s[1] in multiset(s);
    assert s == [100.0, 200.0];
    var traces: seq<seq<real>> := [[1.0], [2.0]];
    assert traces[..1] == [[1.0]];
  }
}
