/** The arithmetic behind the two AVO summary plots: avo_plot's per-bin averages with
    empty bins dropped, and std_plot's long-form table of nonzero values with its
    optional mean alignment of every named series. */
module QcSummary {
  import opened Wrappers
  import opened ArrayOps
  import QcText

  type String = QcText.String

  /** Every row (one per gather) holds nb bins. */
  predicate Rectangular(data: seq<seq<real>>, nb: nat)
  {
    forall g :: 0 <= g < |data| ==> |data[g]| == nb
  }

  /** data.T[b]: bin b across all gathers. */
  function Column(data: seq<seq<real>>, nb: nat, b: nat): (c: seq<real>)
    requires Rectangular(data, nb) && b < nb
    ensures |c| == |data|
    ensures forall g :: 0 <= g < |data| ==> c[g] == data[g][b]
  {
    seq(|data|, g requires 0 <= g < |data| => data[g][b])
  }

  /** data.T: one row per bin. */
  function Transposed(data: seq<seq<real>>, nb: nat): (t: seq<seq<real>>)
    requires Rectangular(data, nb)
    ensures |t| == nb
    ensures forall b :: 0 <= b < nb ==> t[b] == Column(data, nb, b)
  {
    seq(nb, b requires 0 <= b < nb => Column(data, nb, b))
  }

  // ---------------------------------------------------------------------------
  // avo_plot

  /** A callable avg_method: receives the masked bins-by-gathers matrix and gives one
      value per bin, None standing for NaN. */
  type Averager = seq<seq<Option<real>>> -> seq<Option<real>>

  datatype AvgMethod = Named(name: String) | Callable(f: Averager)

  /** bin_size: the string 'offset', an integer bin width, or positions given as they are. */
  datatype XAxis = OffsetIndex | BinWidth(width: int) | Given(xs: seq<real>)

  datatype PlotError =
    | UnknownAvgMethod(name: String)   // the ValueError for an avg_method that is neither 'mean' nor callable
    | BinOutOfRange                    // transposed_data[nonzeros] with an index past the last bin

  /** nan_data: the transposed data with exact zeros as NaN. */
  function NanData(data: seq<seq<real>>, nb: nat): (r: seq<seq<Option<real>>>)
    requires Rectangular(data, nb)
    ensures |r| == nb
    ensures forall b :: 0 <= b < nb ==> r[b] == MaskZeros(Column(data, nb, b))
  {
    seq(nb, b requires 0 <= b < nb => MaskZeros(Column(data, nb, b)))
  }

  /** avg_value after np.nan_to_num, or the ValueError. */
  function BinAverages(data: seq<seq<real>>, nb: nat, m: AvgMethod): (r: Result<seq<real>, PlotError>)
    requires Rectangular(data, nb)
    ensures r.Failure? <==> m.Named? && m.name != "mean"
    ensures r.Failure? ==> r.error == UnknownAvgMethod(m.name)
    ensures r.Success? && m.Named? ==> |r.value| == nb
  {
    var nan := NanData(data, nb);
    match m
    case Named(name) =>
      if name == "mean" then Success(seq(nb, b requires 0 <= b < nb => NanToNum(NanMean(nan[b]))))
      else Failure(UnknownAvgMethod(name))
    case Callable(f) =>
      var a := f(nan);
      Success(seq(|a|, k requires 0 <= k < |a| => NanToNum(a[k])))
  }

  /** np.nonzero: the indices of the nonzero entries, ascending. */
  function NonzeroIndices(a: seq<real>): (r: seq<nat>)
    ensures forall j :: 0 <= j < |r| ==> r[j] < |a| && a[r[j]] != 0.0
    ensures forall j, l :: 0 <= j < l < |r| ==> r[j] < r[l]
    ensures forall i :: 0 <= i < |a| && a[i] != 0.0 ==> i in r
  {
    if |a| == 0 then []
    else
      var n := |a| - 1;
      var p := NonzeroIndices(a[..n]);
      assert forall j :: 0 <= j < |p| ==> a[..n][p[j]] == a[p[j]];
      assert forall i :: 0 <= i < n ==> a[..n][i] == a[i];
      if a[n] != 0.0 then p + [n] else p
  }

  /** The bins avo_plot draws: their indices, averages, amplitudes and x-positions. */
  datatype AvoBins = AvoBins(kept: seq<nat>, averages: seq<real>, bins: seq<seq<real>>, positions: seq<real>)

  /** The x-position of each kept bin. */
  function Positions(x: XAxis, kept: seq<nat>): (r: seq<real>)
    ensures x.Given? ==> r == x.xs
    ensures x.OffsetIndex? ==> |r| == |kept| && forall j :: 0 <= j < |kept| ==> r[j] == kept[j] as real
    ensures x.BinWidth? ==> |r| == |kept| && forall j :: 0 <= j < |kept| ==> r[j] == (kept[j] * x.width) as real
  {
    match x
    case OffsetIndex => seq(|kept|, j requires 0 <= j < |kept| => kept[j] as real)
    case BinWidth(w) => seq(|kept|, j requires 0 <= j < |kept| => (kept[j] * w) as real)
    case Given(xs) => xs
  }

  /** avo_plot up to the approximation: average every bin, then drop the bins whose
      average is zero. */
  function AvoBinning(data: seq<seq<real>>, nb: nat, m: AvgMethod, x: XAxis): (r: Result<AvoBins, PlotError>)
    requires Rectangular(data, nb)
    ensures m.Named? && m.name != "mean" ==> r == Failure(UnknownAvgMethod(m.name))
  {
    var avg :- BinAverages(data, nb, m);
    KeepNonzero(data, nb, avg, x)
  }

  /** Drops the bins whose average is zero. */
  function KeepNonzero(data: seq<seq<real>>, nb: nat, avg: seq<real>, x: XAxis): (r: Result<AvoBins, PlotError>)
    requires Rectangular(data, nb)
    ensures |avg| <= nb ==> r.Success?
    ensures r.Failure? <==> exists i :: nb <= i < |avg| && avg[i] != 0.0
    ensures r.Failure? ==> r.error == BinOutOfRange
  {
    var kept := NonzeroIndices(avg);
    if |kept| > 0 && kept[|kept| - 1] >= nb then
      assert avg[kept[|kept| - 1]] != 0.0;
      Failure(BinOutOfRange)
    else
      var t := Transposed(data, nb);
      Success(AvoBins(kept,
                      seq(|kept|, j requires 0 <= j < |kept| => avg[kept[j]]),
                      seq(|kept|, j requires 0 <= j < |kept| && kept[j] < nb => t[kept[j]]),
                      Positions(x, kept)))
  }

  /** With avg_method 'mean', bin b's average is the mean of its nonzero amplitudes
      across gathers, and 0 when it has none. */
  lemma {:induction false} MeanBinAverage(data: seq<seq<real>>, nb: nat, b: nat)
    requires Rectangular(data, nb) && b < nb
    ensures var a := BinAverages(data, nb, Named("mean")).value;
            var nz := NonZero(Column(data, nb, b));
            && (|nz| == 0 ==> a[b] == 0.0)
            && (|nz| > 0 ==> a[b] == Mean(nz))
  {
    PresentMaskZeros(Column(data, nb, b));
  }

  /** The kept bins are, in ascending order, exactly the bins with a nonzero average;
      each carries its own average and amplitudes. */
  lemma {:induction false} KeepNonzeroBins(data: seq<seq<real>>, nb: nat, avg: seq<real>, x: XAxis)
    requires Rectangular(data, nb)
    requires KeepNonzero(data, nb, avg, x).Success?
    ensures var r := KeepNonzero(data, nb, avg, x).value;
            && |r.averages| == |r.kept| && |r.bins| == |r.kept|
            && (forall j, l :: 0 <= j < l < |r.kept| ==> r.kept[j] < r.kept[l])
            && (forall j :: 0 <= j < |r.kept| ==>
                  r.kept[j] < nb && r.kept[j] < |avg| && avg[r.kept[j]] != 0.0 &&
                  r.averages[j] == avg[r.kept[j]] && r.bins[j] == Column(data, nb, r.kept[j]))
            && (forall i :: 0 <= i < |avg| && avg[i] != 0.0 ==> i in r.kept)
  {
    var kept := NonzeroIndices(avg);
    if |kept| > 0 {
      assert forall j :: 0 <= j < |kept| ==> kept[j] <= kept[|kept| - 1];
    }
  }

  /** A kept bin sits at its index when bin_size is 'offset', at index times the bin
      width when it is an integer, and the given positions are used as they are. */
  lemma {:induction false} KeepNonzeroPositions(data: seq<seq<real>>, nb: nat, avg: seq<real>, x: XAxis)
    requires Rectangular(data, nb)
    requires KeepNonzero(data, nb, avg, x).Success?
    ensures var r := KeepNonzero(data, nb, avg, x).value;
            && (x.OffsetIndex? ==>
                  |r.positions| == |r.kept| &&
                  (forall j :: 0 <= j < |r.kept| ==> r.positions[j] == r.kept[j] as real))
            && (x.BinWidth? ==>
                  |r.positions| == |r.kept| &&
                  (forall j :: 0 <= j < |r.kept| ==> r.positions[j] == (r.kept[j] * x.width) as real))
            && (x.Given? ==> r.positions == x.xs)
  {
  }

  /** With avg_method 'mean' nothing raises, and bin b is kept exactly when it holds
      a nonzero amplitude and the mean of those is nonzero. */
  lemma {:induction false} MeanBinningKeepsNonzeroMeans(data: seq<seq<real>>, nb: nat, x: XAxis, b: nat)
    requires Rectangular(data, nb) && b < nb
    ensures AvoBinning(data, nb, Named("mean"), x).Success?
    ensures var nz := NonZero(Column(data, nb, b));
            b in AvoBinning(data, nb, Named("mean"), x).value.kept <==> |nz| > 0 && Mean(nz) != 0.0
  {
    var avg := BinAverages(data, nb, Named("mean")).value;
    var kept := NonzeroIndices(avg);
    assert |avg| == nb;
    MeanBinAverage(data, nb, b);
    if b in kept {
      var j :| 0 <= j < |kept| && kept[j] == b;
      assert avg[b] != 0.0;
    }
  }

  /** stats entries: a name ('std', 'corr' or anything else) or a callable. */
  datatype Stat = StatName(name: String) | StatFn(f: seq<seq<Option<real>>> -> real)

  /** stats: None, a single name, or a list of entries. */
  datatype StatsArg = NoStats | OneStat(name: String) | StatList(stats: seq<Stat>)

  /** The title label of one stats entry; an unrecognised name gets none, since its
      ValueError is created and never raised. */
  function StatLabel(s: Stat): Option<String>
  {
    match s
    case StatFn(_) => Some("Callable stat")
    case StatName(n) =>
      if n == "std" then Some("Mean std")
      else if n == "corr" then Some("Corr")
      else None
  }

  /** The labels of stats_names, in order. */
  function Labels(ss: seq<Stat>): (r: seq<String>)
    ensures |r| <= |ss|
  {
    if |ss| == 0 then []
    else
      var p := Labels(ss[..|ss| - 1]);
      match StatLabel(ss[|ss| - 1])
      case Some(l) => p + [l]
      case None => p
  }

  function StatLabels(arg: StatsArg): (r: seq<String>)
    ensures arg.NoStats? ==> r == []
    ensures arg.OneStat? ==>
              (arg.name == "std" ==> r == ["Mean std"]) &&
              (arg.name == "corr" ==> r == ["Corr"]) &&
              (arg.name != "std" && arg.name != "corr" ==> r == [])
    ensures arg.StatList? ==> |r| <= |arg.stats|
  {
    match arg
    case NoStats => []
    case OneStat(n) => Labels([StatName(n)])
    case StatList(ss) => Labels(ss)
  }

  lemma {:induction false} LabelsConcat(a: seq<Stat>, b: seq<Stat>)
    ensures Labels(a + b) == Labels(a) + Labels(b)
  {
    if |b| == 0 {
      assert a + b == a;
    } else {
      var n := |b| - 1;
      assert (a + b)[..|a + b| - 1] == a + b[..n];
      LabelsConcat(a, b[..n]);
    }
  }

  /** Every entry gets a label except the unrecognised names, which are skipped without
      an error wherever they appear. */
  lemma {:induction false} UnknownStatSkipped(pre: seq<Stat>, n: String, post: seq<Stat>)
    requires n != "std" && n != "corr"
    ensures Labels(pre + [StatName(n)] + post) == Labels(pre + post)
  {
    LabelsConcat(pre + [StatName(n)], post);
    LabelsConcat(pre, [StatName(n)]);
    assert Labels([StatName(n)]) == [] by {
      assert [StatName(n)][..0] == [];
    }
    assert Labels(pre) + [] == Labels(pre);
    LabelsConcat(pre, post);
  }

  lemma {:induction false} LabelsAllKnown(ss: seq<Stat>)
    ensures |Labels(ss)| == |ss| <==> forall k :: 0 <= k < |ss| ==> StatLabel(ss[k]).Some?
  {
    if |ss| > 0 {
      var n := |ss| - 1;
      LabelsAllKnown(ss[..n]);
      assert forall k :: 0 <= k < n ==> ss[..n][k] == ss[k];
    }
  }

  // ---------------------------------------------------------------------------
  // std_plot: the long-form table

  /** One row of resulted_df: a value, its offset and its series name. */
  datatype Entry = Entry(val: real, offset: real, name: String)

  /** The number of bins of one AVO distribution (gathers by bins). */
  function Width(m: seq<seq<real>>): nat
  {
    if |m| == 0 then 0 else |m[0]|
  }

  predicate Matrix(m: seq<seq<real>>)
  {
    Rectangular(m, Width(m))
  }

  /** The entries of one bin: its nonzero values, in gather order. */
  function BinEntries(col: seq<real>, offset: real, name: String): (r: seq<Entry>)
    ensures |r| == |NonZero(col)|
    ensures forall j :: 0 <= j < |r| ==> r[j] == Entry(NonZero(col)[j], offset, name)
  {
    var nz := NonZero(col);
    seq(|nz|, j requires 0 <= j < |nz| => Entry(nz[j], offset, name))
  }

  /** The parts one after another. */
  function Concat<T>(parts: seq<seq<T>>): seq<T>
  {
    if |parts| == 0 then [] else Concat(parts[..|parts| - 1]) + parts[|parts| - 1]
  }

  lemma {:induction false} ConcatMembers<T>(parts: seq<seq<T>>, e: T)
    ensures e in Concat(parts) <==> exists k :: 0 <= k < |parts| && e in parts[k]
  {
    if |parts| > 0 {
      var n := |parts| - 1;
      ConcatMembers(parts[..n], e);
      assert forall k :: 0 <= k < n ==> parts[..n][k] == parts[k];
    }
  }

  /** The entries of bin b of one series; a bin whose sum across gathers is zero
      contributes nothing. */
  function BinPart(m: seq<seq<real>>, binSize: int, name: String, b: nat): (r: seq<Entry>)
    requires Matrix(m) && b < Width(m)
    ensures |r| <= |m|
    ensures Sum(Column(m, Width(m), b)) == 0.0 ==> r == []
    ensures forall e :: e in r ==> e.val != 0.0 && e.offset == (b * binSize) as real && e.name == name
  {
    var col := Column(m, Width(m), b);
    if Sum(col) != 0.0 then
      var r := BinEntries(col, (b * binSize) as real, name);
      assert forall j :: 0 <= j < |r| ==> NonZero(col)[j] in NonZero(col);
      r
    else []
  }

  /** tmp_df of one series: its bins' entries, bin after bin. */
  function Series(m: seq<seq<real>>, binSize: int, name: String): (r: seq<Entry>)
    requires Matrix(m)
    ensures Width(m) == 0 ==> r == []
    ensures forall e :: e in r ==> e.val != 0.0 && e.name == name
  {
    var parts := seq(Width(m), b requires 0 <= b < Width(m) => BinPart(m, binSize, name, b));
    assert forall e :: e in Concat(parts) ==> e.val != 0.0 && e.name == name by {
      forall e | e in Concat(parts) ensures e.val != 0.0 && e.name == name {
        ConcatMembers(parts, e);
      }
    }
    Concat(parts)
  }

  /** Value m[g][b] of series name is in the table. */
  predicate Tabled(m: seq<seq<real>>, binSize: int, name: String, b: nat, g: nat, e: Entry)
    requires Matrix(m)
  {
    b < Width(m) && g < |m| && Sum(Column(m, Width(m), b)) != 0.0 && m[g][b] != 0.0 &&
    e == Entry(m[g][b], (b * binSize) as real, name)
  }

  lemma {:induction false} BinPartMembers(m: seq<seq<real>>, binSize: int, name: String, b: nat, e: Entry)
    requires Matrix(m) && b < Width(m)
    ensures e in BinPart(m, binSize, name, b) <==> exists g :: Tabled(m, binSize, name, b, g, e)
  {
    var col := Column(m, Width(m), b);
    if Sum(col) != 0.0 {
      var off := (b * binSize) as real;
      var be := BinEntries(col, off, name);
      var nz := NonZero(col);
      if e in be {
        var j :| 0 <= j < |be| && be[j] == e;
        assert nz[j] in nz;
        var g :| 0 <= g < |col| && col[g] == nz[j];
        assert Tabled(m, binSize, name, b, g, e);
      }
      if g: nat :| Tabled(m, binSize, name, b, g, e) {
        assert col[g] in col;
        var j :| 0 <= j < |nz| && nz[j] == col[g];
        assert be[j] == e;
      }
    }
  }

  /** The table of one series holds exactly its nonzero values in bins with a nonzero
      sum, each tagged with offset bin index times bin_size and the series name. */
  lemma {:induction false} SeriesMembers(m: seq<seq<real>>, binSize: int, name: String, e: Entry)
    requires Matrix(m)
    ensures e in Series(m, binSize, name) <==> exists b, g :: Tabled(m, binSize, name, b, g, e)
  {
    var parts := seq(Width(m), b requires 0 <= b < Width(m) => BinPart(m, binSize, name, b));
    ConcatMembers(parts, e);
    if e in Series(m, binSize, name) {
      var b :| 0 <= b < |parts| && e in parts[b];
      BinPartMembers(m, binSize, name, b, e);
    }
    if b: nat, g: nat :| Tabled(m, binSize, name, b, g, e) {
      BinPartMembers(m, binSize, name, b, e);
      assert e in parts[b];
    }
  }

  /** names=None: the series are named "0", "1", ... */
  function DefaultNames(n: nat): (r: seq<String>)
    ensures |r| == n
  {
    seq(n, k requires 0 <= k < n => QcText.IntToString(k))
  }

  /** The default names tell the series apart. */
  lemma {:induction false} DefaultNamesDistinct(n: nat)
    ensures NoDuplicates(DefaultNames(n))
  {
    forall i, j | 0 <= i < j < n
      ensures DefaultNames(n)[i] != DefaultNames(n)[j]
    {
      assert QcText.DigitsValue(QcText.NatToString(i)) == i;
      assert QcText.DigitsValue(QcText.NatToString(j)) == j;
    }
  }

  predicate Matrices(avo: seq<seq<seq<real>>>)
  {
    forall k :: 0 <= k < |avo| ==> Matrix(avo[k])
  }

  /** zip(avo_results, names): as many series as the shorter of the two. */
  function SeriesCount(avo: seq<seq<seq<real>>>, names: seq<String>): (r: nat)
    ensures r <= |avo| && r <= |names|
    ensures r == |avo| || r == |names|
  {
    if |avo| < |names| then |avo| else |names|
  }

  /** The tables of the zipped series. */
  function SeriesTables(avo: seq<seq<seq<real>>>, names: seq<String>, binSize: int): (r: seq<seq<Entry>>)
    requires Matrices(avo)
    ensures |r| == SeriesCount(avo, names)
  {
    seq(SeriesCount(avo, names), k requires 0 <= k < SeriesCount(avo, names) => Series(avo[k], binSize, names[k]))
  }

  /** resulted_df: the zipped series' tables, series after series. */
  function Table(avo: seq<seq<seq<real>>>, names: seq<String>, binSize: int): (r: seq<Entry>)
    requires Matrices(avo)
    ensures SeriesCount(avo, names) == 0 ==> r == []
    ensures forall e :: e in r ==> e.val != 0.0 && e.name in names
  {
    var parts := SeriesTables(avo, names, binSize);
    assert forall e :: e in Concat(parts) ==> e.val != 0.0 && e.name in names by {
      forall e | e in Concat(parts) ensures e.val != 0.0 && e.name in names {
        ConcatMembers(parts, e);
        var k :| 0 <= k < |parts| && e in parts[k];
        assert parts[k] == Series(avo[k], binSize, names[k]);
      }
    }
    Concat(parts)
  }

  /** An entry is in the table exactly when it is a nonzero value m[g][b] of one of the
      zipped series, in a bin whose sum is nonzero, tagged with b * bin_size and the
      series' name. */
  lemma {:induction false} TableMembers(avo: seq<seq<seq<real>>>, names: seq<String>, binSize: int, e: Entry)
    requires Matrices(avo)
    ensures e in Table(avo, names, binSize) <==>
              exists k, b, g :: 0 <= k < SeriesCount(avo, names) && Tabled(avo[k], binSize, names[k], b, g, e)
  {
    var parts := SeriesTables(avo, names, binSize);
    ConcatMembers(parts, e);
    if e in Table(avo, names, binSize) {
      var k :| 0 <= k < |parts| && e in parts[k];
      SeriesMembers(avo[k], binSize, names[k], e);
    }
    if k, b: nat, g: nat :| 0 <= k < SeriesCount(avo, names) && Tabled(avo[k], binSize, names[k], b, g, e) {
      SeriesMembers(avo[k], binSize, names[k], e);
      assert e in parts[k];
    }
  }

  /** The loop of std_plot: appends each series' table to resulted_df. */
  method BuildTable(avo: seq<seq<seq<real>>>, names: seq<String>, binSize: int) returns (table: seq<Entry>)
    requires Matrices(avo)
    ensures table == Table(avo, names, binSize)
  {
    ghost var parts := SeriesTables(avo, names, binSize);
    table := [];
    var k := 0;
    while k < SeriesCount(avo, names)
      invariant 0 <= k <= SeriesCount(avo, names)
      invariant table == Concat(parts[..k])
    {
      assert parts[..k + 1][..k] == parts[..k];
      table := table + Series(avo[k], binSize, names[k]);
      k := k + 1;
    }
    assert parts[..k] == parts;
  }

  // ---------------------------------------------------------------------------
  // std_plot: align_mean

  /** The values of the entries named n, in table order. */
  function GroupValues(v: seq<real>, names: seq<String>, n: String): (r: seq<real>)
    requires |v| == |names|
    ensures |r| <= |v|
    ensures |r| == 0 <==> n !in names
    ensures forall x :: x in r ==> x in v
  {
    if |v| == 0 then []
    else
      var k := |v| - 1;
      assert names == names[..k] + [names[k]];
      assert v == v[..k] + [v[k]];
      GroupValues(v[..k], names[..k], n) + (if names[k] == n then [v[k]] else [])
  }

  /** The group over two runs of entries is that of the first run, then that of the
      second: every entry named n is kept once, in table order. */
  lemma {:induction false} GroupValuesConcat(v1: seq<real>, names1: seq<String>, v2: seq<real>, names2: seq<String>,
                                             n: String)
    requires |v1| == |names1| && |v2| == |names2|
    ensures GroupValues(v1 + v2, names1 + names2, n) == GroupValues(v1, names1, n) + GroupValues(v2, names2, n)
  {
    if |v2| > 0 {
      var k := |v2| - 1;
      GroupValuesConcat(v1, names1, v2[..k], names2[..k], n);
      DropLastConcat(v1, v2);
      DropLastConcat(names1, names2);
    } else {
      ConcatEmpty(v1, v2);
      ConcatEmpty(names1, names2);
    }
  }

  /** One entry joins the group exactly when it is named n. */
  lemma GroupValuesSingle(x: real, name: String, n: String)
    ensures GroupValues([x], [name], n) == if name == n then [x] else []
  {
    assert [x][..0] == [] && [name][..0] == [];
  }

  /** np.mean(dframe.val) of the group named n. */
  function GroupMean(v: seq<real>, names: seq<String>, n: String): real
    requires |v| == |names| && n in names
  {
    Mean(GroupValues(v, names, n))
  }

  /** The values after align_mean: each shifted by the global mean minus the mean of its
      own group. An empty table stays empty. */
  function Aligned(v: seq<real>, names: seq<String>): (r: seq<real>)
    requires |v| == |names|
    ensures |r| == |v|
  {
    if |v| == 0 then v
    else
      seq(|v|, i requires 0 <= i < |v| => v[i] + (Mean(v) - GroupMean(v, names, names[i])))
  }

  /** Groups agree when the values of their members do. */
  lemma {:induction false} GroupAgrees(w: seq<real>, v: seq<real>, names: seq<String>, n: String, c: real)
    requires |w| == |v| == |names|
    requires forall i :: 0 <= i < |v| && names[i] == n ==> w[i] == v[i] + c
    ensures GroupValues(w, names, n) == Shifted(GroupValues(v, names, n), c)
  {
    if |v| > 0 {
      var k := |v| - 1;
      GroupAgrees(w[..k], v[..k], names[..k], n, c);
      var p := GroupValues(v[..k], names[..k], n);
      var q := GroupValues(w[..k], names[..k], n);
      GroupValuesLast(w, names, n);
      GroupValuesLast(v, names, n);
      if names[k] == n {
        ShiftedSnoc(p, v[k], c);
        assert GroupValues(w, names, n) == q + [w[k]];
      } else {
        assert GroupValues(w, names, n) == q;
        assert GroupValues(v, names, n) == p;
      }
    }
  }

  /** Unfolds GroupValues at the last entry. */
  lemma GroupValuesLast(v: seq<real>, names: seq<String>, n: String)
    requires |v| == |names| > 0
    ensures var k := |v| - 1;
            GroupValues(v, names, n) ==
            GroupValues(v[..k], names[..k], n) + (if names[k] == n then [v[k]] else [])
  {
  }

  lemma ShiftedSnoc(p: seq<real>, x: real, c: real)
    ensures Shifted(p + [x], c) == Shifted(p, c) + [x + c]
  {
  }

  lemma {:induction false} GroupUnchanged(w: seq<real>, v: seq<real>, names: seq<String>, n: String)
    requires |w| == |v| == |names|
    requires forall i :: 0 <= i < |v| && names[i] == n ==> w[i] == v[i]
    ensures GroupValues(w, names, n) == GroupValues(v, names, n)
  {
    GroupAgrees(w, v, names, n, 0.0);
    assert Shifted(GroupValues(v, names, n), 0.0) == GroupValues(v, names, n);
  }

  /** After alignment every group's mean is the global mean. */
  lemma {:induction false} AlignedGroupMean(v: seq<real>, names: seq<String>, n: String)
    requires |v| == |names| && n in names
    ensures GroupMean(Aligned(v, names), names, n) == Mean(v)
  {
    var c := Mean(v) - GroupMean(v, names, n);
    GroupAgrees(Aligned(v, names), v, names, n, c);
    MeanShifted(GroupValues(v, names, n), c);
  }

  /** Alignment keeps the differences between members of one group. */
  lemma {:induction false} AlignedDifferences(v: seq<real>, names: seq<String>, i: nat, j: nat)
    requires |v| == |names| && i < |v| && j < |v| && names[i] == names[j]
    ensures Aligned(v, names)[i] - Aligned(v, names)[j] == v[i] - v[j]
  {
  }

  /** The sum of each listed group's sum. */
  function GroupSums(v: seq<real>, names: seq<String>, keys: seq<String>): real
    requires |v| == |names|
  {
    if |keys| == 0 then 0.0
    else GroupSums(v, names, keys[..|keys| - 1]) + Sum(GroupValues(v, names, keys[|keys| - 1]))
  }

  lemma {:induction false} GroupSumsSnoc(v: seq<real>, names: seq<String>, keys: seq<String>)
    requires |v| == |names| > 0 && NoDuplicates(keys)
    ensures var k := |v| - 1;
            GroupSums(v, names, keys) ==
              GroupSums(v[..k], names[..k], keys) + (if names[k] in keys then v[k] else 0.0)
  {
    var k := |v| - 1;
    if |keys| > 0 {
      var ks := keys[..|keys| - 1];
      var last := keys[|keys| - 1];
      assert NoDuplicates(ks) by {
        forall i, j | 0 <= i < j < |ks| ensures ks[i] != ks[j] {
          assert ks[i] == keys[i] && ks[j] == keys[j];
        }
      }
      GroupSumsSnoc(v, names, ks);
      var p := GroupValues(v[..k], names[..k], last);
      SumConcat(p, if names[k] == last then [v[k]] else []);
      assert keys == ks + [last];
      if names[k] == last {
        assert names[k] !in ks by {
          forall i | 0 <= i < |ks| ensures ks[i] != last {
            assert ks[i] == keys[i];
          }
        }
      }
    }
  }

  /** The groups of a key list that names every entry once partition the sum. */
  lemma {:induction false} SumByGroups(v: seq<real>, names: seq<String>, keys: seq<String>)
    requires |v| == |names| && NoDuplicates(keys)
    requires forall i :: 0 <= i < |names| ==> names[i] in keys
    ensures GroupSums(v, names, keys) == Sum(v)
  {
    if |v| == 0 {
      GroupSumsEmpty(v, names, keys);
    } else {
      var k := |v| - 1;
      GroupSumsSnoc(v, names, keys);
      SumByGroups(v[..k], names[..k], keys);
    }
  }

  lemma {:induction false} GroupSumsEmpty(v: seq<real>, names: seq<String>, keys: seq<String>)
    requires |v| == |names| == 0
    ensures GroupSums(v, names, keys) == 0.0
  {
    if |keys| > 0 {
      GroupSumsEmpty(v, names, keys[..|keys| - 1]);
    }
  }

  /** When every listed group has mean c, the groups sum as those of the constant c. */
  lemma {:induction false} EqualMeanGroupSums(w: seq<real>, names: seq<String>, keys: seq<String>, c: real)
    requires |w| == |names|
    requires forall j :: 0 <= j < |keys| ==> keys[j] in names && GroupMean(w, names, keys[j]) == c
    ensures GroupSums(w, names, keys) == GroupSums(Constant(|w|, c), names, keys)
  {
    if |keys| > 0 {
      var ks := keys[..|keys| - 1];
      var n := keys[|keys| - 1];
      var cw := Constant(|w|, c);
      assert forall j :: 0 <= j < |ks| ==> ks[j] == keys[j];
      EqualMeanGroupSums(w, names, ks, c);
      var sa := Sum(GroupValues(w, names, n));
      var su := Sum(GroupValues(cw, names, n));
      GroupSumOfMean(w, names, n, c);
      calc {
        GroupSums(w, names, keys);
        GroupSums(w, names, ks) + sa;
        GroupSums(cw, names, ks) + su;
        GroupSums(cw, names, keys);
      }
    }
  }

  /** A group with mean c sums as the same group of the constant c. */
  lemma {:induction false} GroupSumOfMean(w: seq<real>, names: seq<String>, n: String, c: real)
    requires |w| == |names| && n in names && GroupMean(w, names, n) == c
    ensures Sum(GroupValues(w, names, n)) == Sum(GroupValues(Constant(|w|, c), names, n))
  {
    var a := GroupValues(w, names, n);
    assert |a| > 0 && Mean(a) == c;
    MeanTimesCount(a, c);
    var u := GroupValues(Constant(|w|, c), names, n);
    GroupSize(Constant(|w|, c), w, names, n);
    ConstantGroupSum(|w|, c, names, n);
  }

  /** The size of a group depends on the names only. */
  lemma {:induction false} GroupSize(w: seq<real>, v: seq<real>, names: seq<String>, n: String)
    requires |w| == |v| == |names|
    ensures |GroupValues(w, names, n)| == |GroupValues(v, names, n)|
  {
    if |v| > 0 {
      var k := |v| - 1;
      GroupSize(w[..k], v[..k], names[..k], n);
    }
  }

  function Constant(n: nat, c: real): (r: seq<real>)
    ensures |r| == n && forall k :: 0 <= k < n ==> r[k] == c
  {
    seq(n, _ => c)
  }

  /** The groups of a constant sequence are constant, so each sums to its size times
      the constant. */
  lemma ConstantGroupSum(m: nat, c: real, names: seq<String>, n: String)
    requires m == |names|
    ensures Sum(GroupValues(Constant(m, c), names, n)) == (|GroupValues(Constant(m, c), names, n)| as real) * c
  {
    var u := GroupValues(Constant(m, c), names, n);
    ConstantGroup(m, c, names, n, u);
    SumConstant(u, c);
  }

  lemma ConstantGroup(m: nat, c: real, names: seq<String>, n: String, u: seq<real>)
    requires m == |names| && u == GroupValues(Constant(m, c), names, n)
    ensures forall k :: 0 <= k < |u| ==> u[k] == c
  {
    forall k | 0 <= k < |u| ensures u[k] == c {
      assert u[k] in u;
    }
  }

  /** Alignment leaves the global mean unchanged. */
  lemma {:induction false} AlignedGlobalMean(v: seq<real>, names: seq<String>)
    requires |v| == |names| > 0
    ensures Mean(Aligned(v, names)) == Mean(v)
  {
    var keys := Dedup(names);
    forall j | 0 <= j < |keys|
      ensures keys[j] in names && GroupMean(Aligned(v, names), names, keys[j]) == Mean(v)
    {
      AlignedGroupMean(v, names, keys[j]);
    }
    EqualGroupMeans(Aligned(v, names), names, keys, Mean(v));
  }

  /** When every group has mean m, so has the whole. */
  lemma {:induction false} EqualGroupMeans(w: seq<real>, names: seq<String>, keys: seq<String>, m: real)
    requires |w| == |names| > 0 && keys == Dedup(names)
    requires forall j :: 0 <= j < |keys| ==> keys[j] in names && GroupMean(w, names, keys[j]) == m
    ensures Mean(w) == m
  {
    var cw := Constant(|w|, m);
    var gw := GroupSums(w, names, keys);
    var gc := GroupSums(cw, names, keys);
    assert Sum(w) == gw by {
      SumByGroups(w, names, keys);
    }
    assert gw == gc by {
      EqualMeanGroupSums(w, names, keys, m);
    }
    assert gc == Sum(cw) by {
      SumByGroups(cw, names, keys);
    }
    MeanOfEqualSum(w, cw, m);
  }

  /** One aligned value. */
  lemma {:induction false} AlignedAt(v: seq<real>, names: seq<String>, i: nat)
    requires |v| == |names| && i < |v|
    ensures Aligned(v, names)[i] == v[i] + (Mean(v) - GroupMean(v, names, names[i]))
  {
  }

  /** resulted_df.loc[resulted_df['name'] == n, 'val'] += align: shifts the values of
      one group in place. */
  method ShiftGroup(vals: array<real>, names: seq<String>, n: String, align: real)
    requires vals.Length == |names|
    modifies vals
    ensures vals[..] == ShiftedGroup(old(vals[..]), names, n, align)
  {
    var i := 0;
    while i < vals.Length
      invariant 0 <= i <= vals.Length
      invariant forall j :: 0 <= j < vals.Length ==>
                  vals[j] == if j < i && names[j] == n then old(vals[j]) + align else old(vals[j])
    {
      if names[i] == n {
        vals[i] := vals[i] + align;
      }
      i := i + 1;
    }
  }

  /** The values with those of group n shifted by align and the others unchanged. */
  function ShiftedGroup(v: seq<real>, names: seq<String>, n: String, align: real): (r: seq<real>)
    requires |v| == |names|
    ensures |r| == |v|
  {
    seq(|v|, j requires 0 <= j < |v| => if names[j] == n then v[j] + align else v[j])
  }

  /** The values once the groups in done are aligned and the others are not yet. */
  function PartlyAligned(v: seq<real>, names: seq<String>, done: seq<String>): (r: seq<real>)
    requires |v| == |names|
    ensures |r| == |v|
  {
    seq(|v|, i requires 0 <= i < |v| => if names[i] in done then Aligned(v, names)[i] else v[i])
  }

  /** align_mean: shifts every group of the values in place, one group at a time. */
  method AlignMean(vals: array<real>, names: seq<String>)
    requires vals.Length == |names|
    modifies vals
    ensures vals[..] == Aligned(old(vals[..]), names)
  {
    if vals.Length == 0 {
      return;
    }
    ghost var v := vals[..];
    ghost var target := Aligned(v, names);
    var genMean := Mean(vals[..]);
    var groups := Dedup(names);
    var g := 0;
    assert vals[..] == PartlyAligned(v, names, groups[..0]);
    while g < |groups|
      invariant 0 <= g <= |groups|
      invariant vals[..] == PartlyAligned(v, names, groups[..g])
    {
      var n := groups[g];
      NewInPrefix(groups, g);
      var align := genMean - Mean(GroupValues(vals[..], names, n));
      assert align == Mean(v) - GroupMean(v, names, n) by {
        UntouchedGroup(v, names, groups[..g], n);
      }
      ShiftGroup(vals, names, n, align);
      AlignStep(v, names, groups[..g], n, align);
      PrefixSnoc(groups, g);
      g := g + 1;
    }
    AllAligned(v, names, groups);
  }

  /** A group not aligned yet still holds its original values. */
  lemma UntouchedGroup(v: seq<real>, names: seq<String>, done: seq<String>, n: String)
    requires |v| == |names| && n !in done
    ensures GroupValues(PartlyAligned(v, names, done), names, n) == GroupValues(v, names, n)
  {
    GroupUnchanged(PartlyAligned(v, names, done), v, names, n);
  }

  /** Shifting group n by the global mean minus its mean aligns it and nothing else. */
  lemma AlignStep(v: seq<real>, names: seq<String>, done: seq<String>, n: String, align: real)
    requires |v| == |names| > 0 && n !in done && n in names
    requires align == Mean(v) - GroupMean(v, names, n)
    ensures ShiftedGroup(PartlyAligned(v, names, done), names, n, align) == PartlyAligned(v, names, done + [n])
  {
    var after := ShiftedGroup(PartlyAligned(v, names, done), names, n, align);
    forall i | 0 <= i < |v|
      ensures after[i] == PartlyAligned(v, names, done + [n])[i]
    {
      if names[i] == n {
        AlignedAt(v, names, i);
      }
    }
  }

  /** Once every name's group is aligned, all values are. */
  lemma AllAligned(v: seq<real>, names: seq<String>, groups: seq<String>)
    requires |v| == |names| && groups == Dedup(names)
    ensures PartlyAligned(v, names, groups[..|groups|]) == Aligned(v, names)
  {
    assert groups[..|groups|] == groups;
    forall i | 0 <= i < |v| ensures names[i] in groups {
    }
  }

  // ---------------------------------------------------------------------------
  // std_plot

  function Values(t: seq<Entry>): (r: seq<real>)
    ensures |r| == |t| && forall i :: 0 <= i < |t| ==> r[i] == t[i].val
  {
    seq(|t|, i requires 0 <= i < |t| => t[i].val)
  }

  function Offsets(t: seq<Entry>): (r: seq<real>)
    ensures |r| == |t| && forall i :: 0 <= i < |t| ==> r[i] == t[i].offset
  {
    seq(|t|, i requires 0 <= i < |t| => t[i].offset)
  }

  function Names(t: seq<Entry>): (r: seq<String>)
    ensures |r| == |t| && forall i :: 0 <= i < |t| ==> r[i] == t[i].name
  {
    seq(|t|, i requires 0 <= i < |t| => t[i].name)
  }

  /** The series names: the given ones, or "0", "1", ... */
  function SeriesNames(avo: seq<seq<seq<real>>>, names: Option<seq<String>>): seq<String>
  {
    match names
    case Some(ns) => ns
    case None => DefaultNames(|avo|)
  }

  /** std_plot without the drawing: the val, indices and name columns of resulted_df,
      the values mean-aligned per series when align_mean is set. */
  method StdPlotTable(avo: seq<seq<seq<real>>>, binSize: int, names: Option<seq<String>>, alignMean: bool)
      returns (vals: array<real>, offsets: seq<real>, tags: seq<String>)
    requires Matrices(avo)
    ensures fresh(vals)
    ensures var t := Table(avo, SeriesNames(avo, names), binSize);
            && offsets == Offsets(t) && tags == Names(t)
            && vals[..] == if alignMean then Aligned(Values(t), Names(t)) else Values(t)
  {
    var ns := if names.None? then DefaultNames(|avo|) else names.value;
    var table := BuildTable(avo, ns, binSize);
    vals := new real[|table|](i requires 0 <= i < |table| => table[i].val);
    offsets := Offsets(table);
    tags := Names(table);
    assert vals[..] == Values(table);
    if alignMean {
      AlignMean(vals, tags);
    }
  }
}
