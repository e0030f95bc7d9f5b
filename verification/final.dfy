/**
 * The arithmetic of `calculate_final` (DDCS.py:249-269): background sum
 * subtracted from measurement sum, the average relative difference and its
 * classification, and the four-column result table.
 */
module FinalCalc {
  import opened Wrappers
  import opened Spectra

  /** Below this average relative difference the measurement is "only slightly above" the background. */
  const SlightMargin: real := 0.1

  /** The two warnings `calculate_final` can raise about the average relative difference. */
  datatype Diagnostic = AtOrBelowBackground | SlightlyAboveBackground

  /** `last_result` (rows of Channel, Sum_meas, Sum_bkg, Final) and the warning raised, if any. */
  datatype FinalResult = FinalResult(table: seq<seq<real>>, diagnostic: Option<Diagnostic>)

  /** Relative difference at one channel; a channel whose measurement sum is 0 scores 0 and nothing is divided. */
  function RelDiff(m: real, b: real): (r: real)
    ensures m == 0.0 ==> r == 0.0
    ensures m != 0.0 ==> r * m == m - b
  {
    if m == 0.0 then 0.0 else (m - b) / m
  }

  /** The array `rel`: one relative difference per channel. */
  function RelDiffs(meas: Spectrum, bkg: Spectrum): (r: seq<real>)
    requires |meas| == |bkg|
    ensures |r| == |meas|
    ensures forall j :: 0 <= j < |meas| ==> r[j] == RelDiff(meas[j], bkg[j])
  {
    seq(|meas|, j requires 0 <= j < |meas| => RelDiff(meas[j], bkg[j]))
  }

  /** `np.mean(rel)`: over every channel, the zero-measurement ones included as 0; NaN without channels. */
  function AvgRelDiff(meas: Spectrum, bkg: Spectrum): (d: Option<real>)
    requires |meas| == |bkg|
    ensures d.None? <==> meas == []
    ensures d.Some? ==> d.value * (|meas| as real) == Sum(RelDiffs(meas, bkg))
  {
    MeanOf(RelDiffs(meas, bkg))
  }

  /** Which warning the average relative difference raises: below 0, in [0, 0.1), or none (NaN compares false). */
  function Classify(d: Option<real>): (w: Option<Diagnostic>)
    ensures w == Some(AtOrBelowBackground) <==> d.Some? && d.value < 0.0
    ensures w == Some(SlightlyAboveBackground) <==> d.Some? && 0.0 <= d.value < SlightMargin
    ensures w == None <==> d.None? || d.value >= SlightMargin
  {
    match d
    case None => None
    case Some(v) =>
      if v < 0.0 then Some(AtOrBelowBackground)
      else if v < SlightMargin then Some(SlightlyAboveBackground)
      else None
  }

  /** `np.arange(lo, lo + n)`, as the floats `column_stack` turns it into. */
  function Arange(lo: int, n: nat): (r: seq<real>)
    ensures |r| == n
  {
    seq(n, j => (lo + j) as real)
  }

  /** `meas_sum - bkg_sum`. */
  function Difference(meas: Spectrum, bkg: Spectrum): (r: Spectrum)
    requires |meas| == |bkg|
    ensures |r| == |meas|
  {
    seq(|meas|, j requires 0 <= j < |meas| => meas[j] - bkg[j])
  }

  /** `np.column_stack(cols)`: row j holds entry j of every column, in column order. */
  function ColumnStack(cols: seq<seq<real>>, n: nat): (t: seq<seq<real>>)
    requires forall c :: 0 <= c < |cols| ==> |cols[c]| == n
    ensures |t| == n
  {
    seq(n, j requires 0 <= j < n => seq(|cols|, c requires 0 <= c < |cols| => cols[c][j]))
  }

  /** The result table stacked from the channel numbers 1..n, both sums and the final spectrum. */
  function ResultTable(meas: Spectrum, bkg: Spectrum): (t: seq<seq<real>>)
    requires |meas| == |bkg|
    ensures |t| == |meas|
    ensures forall j :: 0 <= j < |meas| ==> t[j] == [(j + 1) as real, meas[j], bkg[j], meas[j] - bkg[j]]
  {
    var n := |meas|;
    var t := ColumnStack([Arange(1, n), meas, bkg, Difference(meas, bkg)], n);
    assert forall j :: 0 <= j < n ==> t[j] == [(j + 1) as real, meas[j], bkg[j], meas[j] - bkg[j]] by {
      forall j | 0 <= j < n
        ensures t[j] == [(j + 1) as real, meas[j], bkg[j], meas[j] - bkg[j]]
      {
        assert |t[j]| == 4;
      }
    }
    t
  }

  /**
   * Everything after the sums: spectra of different lengths make the
   * subtraction or the masked division raise before any result exists.
   */
  function Compute(meas: Spectrum, bkg: Spectrum): (r: Result<FinalResult, Error>)
    ensures r.Ok? <==> |meas| == |bkg|
    ensures r.Err? ==> r.error == ShapeMismatch
    ensures r.Ok? ==> r.value.table == ResultTable(meas, bkg)
    ensures r.Ok? ==> r.value.diagnostic == Classify(AvgRelDiff(meas, bkg))
  {
    if |meas| != |bkg| then Err(ShapeMismatch)
    else Ok(FinalResult(ResultTable(meas, bkg), Classify(AvgRelDiff(meas, bkg))))
  }

  /**
   * The measurement files, then the background files, are read and summed;
   * any failure raises. A measurement file that cannot be read is reported
   * whatever the backgrounds are, an unreadable file is the only cause of
   * `Unreadable`, and a result has one row per measurement channel.
   */
  function FinalFor(read: Reader, measFiles: seq<Path>, bkgFiles: seq<Path>): (r: Result<FinalResult, Error>)
    requires measFiles != [] && bkgFiles != []
    ensures (exists i :: 0 <= i < |measFiles| && read(measFiles[i]).None?) ==> r == Err(Unreadable)
    ensures r == Err(Unreadable) ==>
      || (exists i :: 0 <= i < |measFiles| && read(measFiles[i]).None?)
      || (exists i :: 0 <= i < |bkgFiles| && read(bkgFiles[i]).None?)
    ensures r.Ok? ==> read(measFiles[0]).Some? && |r.value.table| == |read(measFiles[0]).value|
  {
    match ReadAll(read, measFiles)
    case None => Err(Unreadable)
    case Some(ms) =>
      match SumSpectra(ms)
      case None => Err(ShapeMismatch)
      case Some(measSum) =>
        match ReadAll(read, bkgFiles)
        case None => Err(Unreadable)
        case Some(bs) =>
          match SumSpectra(bs)
          case None => Err(ShapeMismatch)
          case Some(bkgSum) => Compute(measSum, bkgSum)
  }

  /** Every file reads, as a spectrum of n channels. */
  predicate ReadsAs(read: Reader, files: seq<Path>, n: nat)
  {
    forall i :: 0 <= i < |files| ==> read(files[i]).Some? && |read(files[i]).value| == n
  }

  /** The final calculation succeeds exactly when all files read as spectra of one common length. */
  lemma FinalForSucceeds(read: Reader, measFiles: seq<Path>, bkgFiles: seq<Path>)
    requires measFiles != [] && bkgFiles != []
    ensures FinalFor(read, measFiles, bkgFiles).Ok? <==>
      read(measFiles[0]).Some?
      && ReadsAs(read, measFiles, |read(measFiles[0]).value|)
      && ReadsAs(read, bkgFiles, |read(measFiles[0]).value|)
  {
    var ok := read(measFiles[0]).Some?
      && ReadsAs(read, measFiles, |read(measFiles[0]).value|)
      && ReadsAs(read, bkgFiles, |read(measFiles[0]).value|);
    var m := ReadAll(read, measFiles);
    var b := ReadAll(read, bkgFiles);
    if m.Some? && b.Some? && Uniform(m.value, |m.value[0]|) && Uniform(b.value, |b.value[0]|) {
      assert m.value[0] == read(measFiles[0]).value;
      assert b.value[0] == read(bkgFiles[0]).value;
      if |m.value[0]| == |b.value[0]| {
        assert ok;
      } else {
        assert !ReadsAs(read, bkgFiles, |read(measFiles[0]).value|) by {
          assert |read(bkgFiles[0]).value| != |read(measFiles[0]).value|;
        }
      }
    } else if m.Some? && b.Some? && Uniform(m.value, |m.value[0]|) {
      var i :| 0 <= i < |b.value| && |b.value[i]| != |b.value[0]|;
      assert read(bkgFiles[i]).value == b.value[i];
      assert !ok;
    } else if m.Some? && b.Some? {
      var i :| 0 <= i < |m.value| && |m.value[i]| != |m.value[0]|;
      assert read(measFiles[i]).value == m.value[i];
      assert !ok;
    }
  }

  /** With all files read into n-channel spectra, the calculation is Compute on the two totals. */
  lemma FinalForIsCompute(read: Reader, measFiles: seq<Path>, bkgFiles: seq<Path>,
                          ms: seq<Spectrum>, bs: seq<Spectrum>, n: nat)
    requires measFiles != [] && bkgFiles != []
    requires ReadAll(read, measFiles) == Some(ms) && ReadAll(read, bkgFiles) == Some(bs)
    requires Uniform(ms, n) && Uniform(bs, n)
    ensures FinalFor(read, measFiles, bkgFiles) == Compute(Total(ms, n), Total(bs, n))
  {
    assert |ms[0]| == n && |bs[0]| == n;
    assert SumSpectra(ms) == Some(Total(ms, n));
    assert SumSpectra(bs) == Some(Total(bs, n));
  }

  /**
   * For spectra of n channels, the table built from the two totals has n rows,
   * and row j is (j + 1, the measurement counts at channel j summed over all
   * measurement files, the same for the backgrounds, their difference).
   */
  lemma TableOfTotals(ms: seq<Spectrum>, bs: seq<Spectrum>, n: nat)
    requires Uniform(ms, n) && Uniform(bs, n)
    ensures |ResultTable(Total(ms, n), Total(bs, n))| == n
    ensures forall j :: 0 <= j < n ==>
      ResultTable(Total(ms, n), Total(bs, n))[j]
        == [(j + 1) as real, ChannelTotal(ms, j), ChannelTotal(bs, j), ChannelTotal(ms, j) - ChannelTotal(bs, j)]
  {
  }

  /**
   * The in-memory result table, read with the column-2 rule of `read_counts`,
   * gives the background sums: column index 2 is Sum_backgrounds, not Final.
   */
  lemma ReadBackGivesBackground(meas: Spectrum, bkg: Spectrum)
    requires |meas| == |bkg| && meas != []
    ensures Column2(ResultTable(meas, bkg)) == Some(bkg)
  {
    var t := ResultTable(meas, bkg);
    assert forall j :: 0 <= j < |t| ==> |t[j]| == 4;
    var c := Column2(t);
    assert c.Some?;
    assert forall j :: 0 <= j < |bkg| ==> c.value[j] == bkg[j];
    assert c.value == bkg;
  }

  /** A zero-measurement channel is not left out of the mean: it pulls the average towards 0. */
  lemma ZeroChannelCountsInMean()
    ensures AvgRelDiff([0.0, 10.0], [0.0, 5.0]) == Some(0.25)
  {
    var rel := RelDiffs([0.0, 10.0], [0.0, 5.0]);
    assert rel == [0.0, 0.5];
    assert Sum(rel) == Sum([0.0]) + 0.5;
  }
}
