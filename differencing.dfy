/**
 * The masked DEM difference, the values its statistics are taken over, and the 17 lines of
 * the statistics log (pygeo_lib/difflib.py DoD_Stats, and the identical body of
 * utilities/statslib.py DoD_Stats).
 */
module Differencing {
  import opened Wrappers
  import opened Paths
  import opened Rasters

  predicate SameShape(a: Grid, b: Grid) {
    a.rows == b.rows && a.cols == b.cols && |a.cells| == |b.cells|
  }

  /**
   * `src - ref` on two masked arrays: a sample is valid only where both are, and then holds
   * their difference; arrays of different shapes do not subtract.
   */
  function Subtract(src: Grid, ref: Grid): (r: Result<Grid>)
    ensures r.Ok? <==> SameShape(src, ref)
    ensures r.Ok? ==> r.value.rows == src.rows && r.value.cols == src.cols && |r.value.cells| == |src.cells|
    ensures r.Ok? ==> forall k :: 0 <= k < |src.cells| ==>
      (r.value.cells[k].Some? <==> src.cells[k].Some? && ref.cells[k].Some?)
    ensures r.Ok? ==> forall k :: 0 <= k < |src.cells| && r.value.cells[k].Some? ==>
      r.value.cells[k].value == src.cells[k].value - ref.cells[k].value
  {
    if !SameShape(src, ref) then Err(ShapeMismatch)
    else Ok(Grid(src.rows, src.cols, seq(|src.cells|, k requires 0 <= k < |src.cells| =>
      if src.cells[k].Some? && ref.cells[k].Some? then Some(src.cells[k].value - ref.cells[k].value) else None)))
  }

  /** The number of valid (unmasked) samples. */
  function ValidCount(cells: seq<Option<real>>): nat {
    if cells == [] then 0 else (if cells[0].Some? then 1 else 0) + ValidCount(cells[1..])
  }

  /** `ma.compressed()`: the valid samples, in order. */
  function Compressed(cells: seq<Option<real>>): (v: seq<real>)
    ensures |v| == ValidCount(cells)
    ensures forall x :: x in v <==> Some(x) in cells
  {
    if cells == [] then []
    else
      var rest := Compressed(cells[1..]);
      assert forall c :: c in cells <==> c == cells[0] || c in cells[1..];
      if cells[0].Some? then [cells[0].value] + rest else rest
  }

  /** Compressing keeps the order of the samples: the valid samples of a concatenation are those
      of the first part followed by those of the second. */
  lemma {:induction false} CompressedAppend(a: seq<Option<real>>, b: seq<Option<real>>)
    ensures Compressed(a + b) == Compressed(a) + Compressed(b)
  {
    if a != [] {
      CompressedAppend(a[1..], b);
      assert (a + b)[1..] == a[1..] + b;
    } else {
      assert a + b == b;
    }
  }

  /** A band without masked samples compresses to its values, position by position. */
  lemma {:induction false} CompressedOfValid(cells: seq<Option<real>>)
    requires forall k :: 0 <= k < |cells| ==> cells[k].Some?
    ensures |Compressed(cells)| == |cells|
    ensures forall k :: 0 <= k < |cells| ==> Compressed(cells)[k] == cells[k].value
  {
    if cells != [] {
      CompressedOfValid(cells[1..]);
    }
  }

  /** `v[v > 0]`. */
  function Positives(v: seq<real>): (r: seq<real>)
    ensures forall x :: x in r <==> x in v && x > 0.0
  {
    if v == [] then [] else (if v[0] > 0.0 then [v[0]] else []) + Positives(v[1..])
  }

  /** `v[v < 0]`. */
  function Negatives(v: seq<real>): (r: seq<real>)
    ensures forall x :: x in r <==> x in v && x < 0.0
  {
    if v == [] then [] else (if v[0] < 0.0 then [v[0]] else []) + Negatives(v[1..])
  }

  /** `v[v == 0]`. */
  function Zeros(v: seq<real>): (r: seq<real>)
    ensures forall x :: x in r <==> x in v && x == 0.0
  {
    if v == [] then [] else (if v[0] == 0.0 then [v[0]] else []) + Zeros(v[1..])
  }

  function Abs(x: real): real {
    if x < 0.0 then -x else x
  }

  /** `np.abs(v)`. */
  function Magnitudes(v: seq<real>): (r: seq<real>)
    ensures |r| == |v|
    ensures forall k :: 0 <= k < |v| ==> r[k] == Abs(v[k])
  {
    seq(|v|, k requires 0 <= k < |v| => Abs(v[k]))
  }

  /** The numpy reductions and `%0.4f` formatting, as the caller's functions. */
  datatype Numerics = Numerics(
    mean: seq<real> -> real,               // np.nanmean
    median: seq<real> -> real,             // np.nanmedian
    std: seq<real> -> real,                // np.nanstd
    min: seq<real> -> real,                // np.nanmin
    max: seq<real> -> real,                // np.nanmax
    percentile: (seq<real>, nat) -> real,  // np.nanpercentile
    fmt4: real -> string)                  // "%0.4f" %

  /** The twelve metrics in the order they are logged. */
  datatype Summary = Summary(
    mean: real, posMean: real, negMean: real,
    absMean: real, absMedian: real, absStd: real, absMin: real, absMax: real,
    p1: real, p5: real, p95: real, p99: real)

  function Summarize(num: Numerics, v: seq<real>): Summary {
    var a := Magnitudes(v);
    Summary(num.mean(v), num.mean(Positives(v)), num.mean(Negatives(v)),
            num.mean(a), num.median(a), num.std(a), num.min(a), num.max(a),
            num.percentile(a, 1), num.percentile(a, 5), num.percentile(a, 95), num.percentile(a, 99))
  }

  function Metrics(s: Summary): seq<real> {
    [s.mean, s.posMean, s.negMean, s.absMean, s.absMedian, s.absStd, s.absMin, s.absMax, s.p1, s.p5, s.p95, s.p99]
  }

  // The labels of the log lines, as DoD_Stats spells them.
  const SourceLabel := "Source DEM: "
  const ReferenceLabel := "Reference DEM: "
  const DoDFileLabel := "DoD File (src-ref): "
  const OutputDirLabel := "Output directory: "
  const ResolutionLabel := "Resolution of source, reference DEMs: "
  const MeanLabel := "Average difference: "
  const PosMeanLabel := "Average of positive difference values: "
  const NegMeanLabel := "Average of negative difference values: "
  const AbsMeanLabel := "Absolute average difference: "
  const AbsMedianLabel := "Absolute median difference: "
  const AbsStdLabel := "Absolute standard deviation: "
  const AbsMinLabel := "Absolute minimum difference: "
  const AbsMaxLabel := "Absolute maximum difference: "
  const P1Label := "Absolute 1st percentile difference: "
  const P5Label := "Absolute 5th percentile difference: "
  const P95Label := "Absolute 95th percentile difference: "
  const P99Label := "Absolute 99th percentile difference: "

  const MetricLabels: seq<string> := [
    MeanLabel, PosMeanLabel, NegMeanLabel, AbsMeanLabel, AbsMedianLabel, AbsStdLabel,
    AbsMinLabel, AbsMaxLabel, P1Label, P5Label, P95Label, P99Label]

  /** The five header lines DoD_Stats logs before the metrics. */
  function HeaderLines(num: Numerics, srcFn: string, refFn: string, outDiffFn: string, outdir: string,
                       srcRes: real, refRes: real): seq<string> {
    [SourceLabel + Basename(srcFn),
     ReferenceLabel + Basename(refFn),
     DoDFileLabel + Basename(outDiffFn),
     OutputDirLabel + outdir,
     ResolutionLabel + num.fmt4(srcRes) + ", " + num.fmt4(refRes)]
  }

  /** The twelve metric lines, in the order DoD_Stats logs them. */
  function MetricLines(num: Numerics, s: Summary): seq<string> {
    [MeanLabel + num.fmt4(s.mean),
     PosMeanLabel + num.fmt4(s.posMean),
     NegMeanLabel + num.fmt4(s.negMean),
     AbsMeanLabel + num.fmt4(s.absMean),
     AbsMedianLabel + num.fmt4(s.absMedian),
     AbsStdLabel + num.fmt4(s.absStd),
     AbsMinLabel + num.fmt4(s.absMin),
     AbsMaxLabel + num.fmt4(s.absMax),
     P1Label + num.fmt4(s.p1),
     P5Label + num.fmt4(s.p5),
     P95Label + num.fmt4(s.p95),
     P99Label + num.fmt4(s.p99)]
  }

  /** Everything DoD_Stats appends to its log, in order. */
  function ReportLines(num: Numerics, srcFn: string, refFn: string, outDiffFn: string, outdir: string,
                       srcRes: real, refRes: real, s: Summary): seq<string> {
    HeaderLines(num, srcFn, refFn, outDiffFn, outdir, srcRes, refRes) + MetricLines(num, s)
  }

  /** Exactly 17 lines: the five header lines, then each metric under its own label, in the fixed order. */
  lemma ReportLayout(num: Numerics, srcFn: string, refFn: string, outDiffFn: string, outdir: string,
                     srcRes: real, refRes: real, s: Summary)
    ensures var lines := ReportLines(num, srcFn, refFn, outDiffFn, outdir, srcRes, refRes, s);
      |lines| == 17 &&
      lines[..5] == HeaderLines(num, srcFn, refFn, outDiffFn, outdir, srcRes, refRes) &&
      forall k :: 0 <= k < 12 ==> lines[5 + k] == MetricLabels[k] + num.fmt4(Metrics(s)[k])
  {
  }

  /** Where the source or the reference is masked the difference is masked, so it never has more
      valid samples than either input. */
  lemma {:induction false} ValidCountBound(src: Grid, ref: Grid)
    requires SameShape(src, ref)
    ensures |Compressed(Subtract(src, ref).value.cells)| <= ValidCount(src.cells)
    ensures |Compressed(Subtract(src, ref).value.cells)| <= ValidCount(ref.cells)
  {
    CellsBound(src.cells, ref.cells, Subtract(src, ref).value.cells);
  }

  lemma {:induction false} CellsBound(s: seq<Option<real>>, r: seq<Option<real>>, d: seq<Option<real>>)
    requires |s| == |r| == |d|
    requires forall k :: 0 <= k < |d| ==> (d[k].Some? <==> s[k].Some? && r[k].Some?)
    ensures |Compressed(d)| <= ValidCount(s) && |Compressed(d)| <= ValidCount(r)
  {
    if d != [] {
      CellsBound(s[1..], r[1..], d[1..]);
    }
  }

  /** Every valid difference sample is positive, negative or zero, and lands in exactly that subset:
      zero differences feed neither the positive nor the negative mean. */
  lemma {:induction false} SignPartition(v: seq<real>)
    ensures |Positives(v)| + |Negatives(v)| + |Zeros(v)| == |v|
    ensures multiset(Positives(v)) + multiset(Negatives(v)) + multiset(Zeros(v)) == multiset(v)
    ensures 0.0 !in Positives(v) && 0.0 !in Negatives(v)
  {
    if v != [] {
      SignPartition(v[1..]);
      assert v == [v[0]] + v[1..];
    }
  }

  /** Differencing a raster band with itself gives zero wherever it is valid: no positive or
      negative change, every magnitude zero, and as many values as valid samples. */
  lemma SelfDifference(g: Grid)
    ensures Subtract(g, g).Ok?
    ensures var v := Compressed(Subtract(g, g).value.cells);
      |v| == ValidCount(g.cells) &&
      (forall k :: 0 <= k < |v| ==> v[k] == 0.0) &&
      Positives(v) == [] && Negatives(v) == [] &&
      forall k :: 0 <= k < |v| ==> Magnitudes(v)[k] == 0.0
  {
    var d := Subtract(g, g).value.cells;
    CompressedOfZeros(g.cells, d);
    var v := Compressed(d);
    NoSignOfZeros(v);
  }

  lemma {:induction false} CompressedOfZeros(s: seq<Option<real>>, d: seq<Option<real>>)
    requires |s| == |d|
    requires forall k :: 0 <= k < |d| ==> (d[k].Some? <==> s[k].Some?)
    requires forall k :: 0 <= k < |d| && d[k].Some? ==> d[k].value == 0.0
    ensures |Compressed(d)| == ValidCount(s)
    ensures forall k :: 0 <= k < |Compressed(d)| ==> Compressed(d)[k] == 0.0
  {
    if d != [] {
      CompressedOfZeros(s[1..], d[1..]);
    }
  }

  lemma {:induction false} NoSignOfZeros(v: seq<real>)
    requires forall k :: 0 <= k < |v| ==> v[k] == 0.0
    ensures Positives(v) == [] && Negatives(v) == []
  {
    if v != [] {
      NoSignOfZeros(v[1..]);
    }
  }
}
