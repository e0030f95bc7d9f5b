/**
 * Worked examples: small concrete groups run through the model, showing
 * what the contracts above pin down on actual numbers.
 */
module Scenarios {
  import opened Wrappers
  import opened Spectra
  import opened Consistency
  import opened FinalCalc

  /** Two measurement files add up channel by channel; their mean is half of that. */
  lemma TwoFileSumAndMean()
    ensures SumSpectra([[10.0, 20.0, 30.0], [12.0, 18.0, 33.0]]) == Some([22.0, 38.0, 63.0])
    ensures MeanSpectrum([[10.0, 20.0, 30.0], [12.0, 18.0, 33.0]], 3) == [11.0, 19.0, 31.5]
  {
    var g := [[10.0, 20.0, 30.0], [12.0, 18.0, 33.0]];
    var none: seq<Spectrum> := [];
    assert g[..1] == [[10.0, 20.0, 30.0]] && g[..1][..0] == none;
    forall j | 0 <= j < 3
      ensures ChannelTotal(g, j) == g[0][j] + g[1][j]
    {
      assert ChannelTotal(g[..1], j) == ChannelTotal(none, j) + g[0][j];
    }
    var r := SumSpectra(g).value;
    assert r[0] == 22.0 && r[1] == 38.0 && r[2] == 63.0;
    assert r == [22.0, 38.0, 63.0];
    var m := MeanSpectrum(g, 3);
    assert m[0] == 11.0 && m[1] == 19.0 && m[2] == 31.5;
  }

  /** Subtracting a background sum of [5, 5, 5]. */
  lemma SubtractBackground()
    ensures Compute([22.0, 38.0, 63.0], [5.0, 5.0, 5.0]).Ok?
    ensures var t := Compute([22.0, 38.0, 63.0], [5.0, 5.0, 5.0]).value.table;
      t[0][3] == 17.0 && t[1][3] == 33.0 && t[2][3] == 58.0
  {
  }

  /** The reader of a three-file group whose first channel drifts in the third file. */
  function OutlierGroup(p: Path): Option<Spectrum>
  {
    if p == "a" then Some([10.0, 20.0, 30.0])
    else if p == "b" then Some([12.0, 18.0, 33.0])
    else if p == "c" then Some([100.0, 20.0, 30.0])
    else None
  }

  const OutlierSpectra: seq<Spectrum> := [[10.0, 20.0, 30.0], [12.0, 18.0, 33.0], [100.0, 20.0, 30.0]]

  lemma OutlierAverage()
    ensures Uniform(OutlierSpectra, 3)
    ensures MeanSpectrum(OutlierSpectra, 3) == [122.0 / 3.0, 58.0 / 3.0, 31.0]
  {
    var spectra := OutlierSpectra;
    var avg := MeanSpectrum(spectra, 3);
    var none: seq<Spectrum> := [];
    assert spectra[..2][..1] == [spectra[0]] && spectra[..2][..1][..0] == none;
    forall j | 0 <= j < 3
      ensures ChannelTotal(spectra, j) == spectra[0][j] + spectra[1][j] + spectra[2][j]
    {
      assert ChannelTotal(spectra[..2], j) == ChannelTotal(spectra[..2][..1], j) + spectra[1][j];
      assert ChannelTotal(spectra[..2][..1], j) == ChannelTotal(none, j) + spectra[0][j];
    }
    assert avg[0] == 122.0 / 3.0 && avg[1] == 58.0 / 3.0 && avg[2] == 31.0;
  }

  /** Each file of the group deviates by more than 20% on average: its first channel alone scores above 0.7. */
  lemma OutlierDeviation(i: nat)
    requires i < 3
    ensures Uniform(OutlierSpectra, 3)
    ensures Exceeds(FileDeviation(OutlierSpectra[i], MeanSpectrum(OutlierSpectra, 3)), 0.2)
  {
    OutlierAverage();
    var avg := MeanSpectrum(OutlierSpectra, 3);
    var rel := RelDevs(OutlierSpectra[i], avg);
    var empty: seq<real> := [];
    assert rel[..2][..1] == [rel[0]] && rel[..2][..1][..0] == empty;
    assert Sum(rel[..2][..1]) == rel[0];
    assert Sum(rel[..2]) == rel[0] + rel[1];
    assert Sum(rel) == rel[0] + rel[1] + rel[2];
    assert rel[1] >= 0.0 && rel[2] >= 0.0;
    assert rel[0] > 0.7 by {
      assert rel[0] * avg[0] == Abs(OutlierSpectra[i][0] - avg[0]);
    }
  }

  /** The three files read as the outlier group. */
  lemma OutlierRead()
    ensures ReadAll(OutlierGroup, ["a", "b", "c"]) == Some(OutlierSpectra)
  {
    var files := ["a", "b", "c"];
    assert OutlierGroup(files[0]) == Some(OutlierSpectra[0]);
    assert OutlierGroup(files[1]) == Some(OutlierSpectra[1]);
    assert OutlierGroup(files[2]) == Some(OutlierSpectra[2]);
    var loaded := ReadAll(OutlierGroup, files);
    assert loaded.Some? && |loaded.value| == 3;
    assert loaded.value[0] == OutlierSpectra[0] && loaded.value[1] == OutlierSpectra[1];
    assert loaded.value[2] == OutlierSpectra[2];
    assert loaded.value == OutlierSpectra;
  }

  /**
   * With the threshold at 0.2, the outlier pulls the group average so far that
   * every file of the group deviates from it by more than 20% on average, and
   * all three are flagged, not just the outlier.
   */
  lemma OutlierFlagsWholeGroup()
    ensures Check(OutlierGroup, ["a", "b", "c"], 0.2).Ok?
    ensures |Check(OutlierGroup, ["a", "b", "c"], 0.2).value| == 3
  {
    var files := ["a", "b", "c"];
    OutlierRead();
    OutlierAverage();
    var avg := MeanSpectrum(OutlierSpectra, 3);
    var devs := Deviations(OutlierSpectra, avg);
    forall i | 0 <= i < 3
      ensures Exceeds(devs[i], 0.2)
    {
      OutlierDeviation(i);
    }
    assert |OutlierSpectra[0]| == 3;
    CheckOfReadGroup(OutlierGroup, files, 0.2, OutlierSpectra);
    assert Check(OutlierGroup, files, 0.2) == Ok(Flags(files, devs, 0.2));
    AllExceedAllFlagged(files, devs, 0.2);
    assert |Flags(files, devs, 0.2)| == 3;
  }
}
