/**
 * The consistency check run after every load (`consistency_check`,
 * DDCS.py:177-196): each file's mean relative deviation from the group's
 * per-channel average, and the files whose deviation exceeds a threshold.
 * The warnings are returned as data instead of being shown in a dialog.
 */
module Consistency {
  import opened Wrappers
  import opened Spectra

  /** The threshold `_load_files` uses (the default of `consistency_check`). */
  const DefaultThreshold: real := 0.05

  /** A warning: position of the file in its list, its path and its mean deviation (a fraction, not a percentage). */
  datatype Flag = Flag(index: nat, file: Path, deviation: real)

  /**
   * Relative deviation of a count from the group average at its channel.
   * A channel whose average is zero is skipped: it scores 0 and nothing is divided.
   */
  function RelDev(x: real, avg: real): (r: real)
    ensures avg == 0.0 ==> r == 0.0
    ensures avg != 0.0 ==> r * avg == Abs(x - avg)
    ensures avg > 0.0 ==> r >= 0.0
  {
    if avg == 0.0 then 0.0 else Abs(x - avg) / avg
  }

  /** The array `rel` for one file: one relative deviation per channel. */
  function RelDevs(s: Spectrum, avg: Spectrum): (r: seq<real>)
    requires |s| == |avg|
    ensures |r| == |avg|
    ensures forall j :: 0 <= j < |avg| ==> r[j] == RelDev(s[j], avg[j])
  {
    seq(|avg|, j requires 0 <= j < |avg| => RelDev(s[j], avg[j]))
  }

  /** `rel.mean()`: averaged over every channel, the skipped ones included as 0. */
  function FileDeviation(s: Spectrum, avg: Spectrum): (d: Option<real>)
    requires |s| == |avg|
    ensures d.None? <==> avg == []
    ensures d.Some? ==> d.value * (|avg| as real) == Sum(RelDevs(s, avg))
  {
    MeanOf(RelDevs(s, avg))
  }

  /** `d > threshold`; a NaN deviation (no channels) never exceeds it. */
  predicate Exceeds(d: Option<real>, threshold: real)
  {
    d.Some? && d.value > threshold
  }

  /** The list `deviations`, one entry per file. */
  function Deviations(spectra: seq<Spectrum>, avg: Spectrum): (r: seq<Option<real>>)
    requires Uniform(spectra, |avg|)
    ensures |r| == |spectra|
    ensures forall i :: 0 <= i < |spectra| ==> r[i] == FileDeviation(spectra[i], avg)
  {
    seq(|spectra|, i requires 0 <= i < |spectra| => FileDeviation(spectra[i], avg))
  }

  /**
   * The warnings raised by the scan over `enumerate(deviations)`, in list
   * order; at most one per file.
   */
  function Flags(files: seq<Path>, devs: seq<Option<real>>, threshold: real): (r: seq<Flag>)
    requires |files| == |devs|
    ensures |r| <= |files|
  {
    if files == [] then []
    else
      var k := |files| - 1;
      Flags(files[..k], devs[..k], threshold)
        + (if Exceeds(devs[k], threshold) then [Flag(k, files[k], devs[k].value)] else [])
  }

  /**
   * The warnings are exactly the files whose deviation exceeds the threshold:
   * each warning names a file, its position and its deviation, every file
   * above the threshold is warned about, and positions ascend, so no file is
   * warned about twice.
   */
  lemma {:induction false} FlagsCharacterized(files: seq<Path>, devs: seq<Option<real>>, threshold: real)
    requires |files| == |devs|
    ensures forall f :: f in Flags(files, devs, threshold) ==>
      f.index < |files| && f.file == files[f.index] && devs[f.index] == Some(f.deviation) && f.deviation > threshold
    ensures forall i :: 0 <= i < |files| && Exceeds(devs[i], threshold) ==>
      Flag(i, files[i], devs[i].value) in Flags(files, devs, threshold)
    ensures forall a, b :: 0 <= a < b < |Flags(files, devs, threshold)| ==>
      Flags(files, devs, threshold)[a].index < Flags(files, devs, threshold)[b].index
  {
    if files != [] {
      var k := |files| - 1;
      FlagsCharacterized(files[..k], devs[..k], threshold);
      var front := Flags(files[..k], devs[..k], threshold);
      var last := if Exceeds(devs[k], threshold) then [Flag(k, files[k], devs[k].value)] else [];
      var r := Flags(files, devs, threshold);
      assert r == front + last;
      forall f | f in r
        ensures f.index < |files| && f.file == files[f.index] && devs[f.index] == Some(f.deviation) && f.deviation > threshold
      {
        if f in front {
          assert files[..k][f.index] == files[f.index];
          assert devs[..k][f.index] == devs[f.index];
        }
      }
      forall i | 0 <= i < |files| && Exceeds(devs[i], threshold)
        ensures Flag(i, files[i], devs[i].value) in r
      {
        if i < k {
          assert files[..k][i] == files[i] && devs[..k][i] == devs[i];
          assert Flag(i, files[i], devs[i].value) in front;
        }
      }
      forall a, b | 0 <= a < b < |r|
        ensures r[a].index < r[b].index
      {
        if b < |front| {
          assert r[a] == front[a] && r[b] == front[b];
          assert front[a].index < front[b].index;
        } else {
          assert |last| <= 1 && b == |front| && a < |front|;
          assert r[a] == front[a] && front[a] in front;
          assert r[b] == last[0] && last[0].index == k;
        }
      }
    }
  }

  /** When every file exceeds the threshold, every file gets exactly one warning. */
  lemma {:induction false} AllExceedAllFlagged(files: seq<Path>, devs: seq<Option<real>>, threshold: real)
    requires |files| == |devs|
    requires forall i :: 0 <= i < |devs| ==> Exceeds(devs[i], threshold)
    ensures |Flags(files, devs, threshold)| == |files|
  {
    if files != [] {
      AllExceedAllFlagged(files[..|files| - 1], devs[..|devs| - 1], threshold);
    }
  }

  /**
   * What `consistency_check(files, label, threshold)` reports. Fewer than two
   * files are not judged and not even read; otherwise every file is read, a
   * failed read or spectra of unequal length raise.
   */
  function Check(read: Reader, files: seq<Path>, threshold: real): (r: Result<seq<Flag>, Error>)
    ensures |files| < 2 ==> r == Ok([])
    ensures r == Err(Unreadable) <==> |files| >= 2 && exists i :: 0 <= i < |files| && read(files[i]).None?
    ensures r == Err(ShapeMismatch) <==>
      && |files| >= 2 && (forall i :: 0 <= i < |files| ==> read(files[i]).Some?)
      && exists i :: 0 <= i < |files| && |read(files[i]).value| != |read(files[0]).value|
    ensures r.Ok? ==> |r.value| <= |files|
  {
    if |files| < 2 then Ok([])
    else
      match ReadAll(read, files)
      case None => Err(Unreadable)
      case Some(spectra) =>
        if !Uniform(spectra, |spectra[0]|) then Err(ShapeMismatch)
        else
          var avg := MeanSpectrum(spectra, |spectra[0]|);
          Ok(Flags(files, Deviations(spectra, avg), threshold))
  }

  /** The first loop: `deviations.append(rel.mean())` for every spectrum. */
  method ComputeDeviations(spectra: seq<Spectrum>, avg: Spectrum) returns (deviations: seq<Option<real>>)
    requires Uniform(spectra, |avg|)
    ensures deviations == Deviations(spectra, avg)
  {
    deviations := [];
    for i := 0 to |spectra|
      invariant |deviations| == i
      invariant forall k :: 0 <= k < i ==> deviations[k] == FileDeviation(spectra[k], avg)
    {
      deviations := deviations + [FileDeviation(spectra[i], avg)];
    }
  }

  /** The second loop: a warning for every deviation above the threshold, in list order. */
  method ScanDeviations(files: seq<Path>, deviations: seq<Option<real>>, threshold: real) returns (flags: seq<Flag>)
    requires |files| == |deviations|
    ensures flags == Flags(files, deviations, threshold)
  {
    flags := [];
    for i := 0 to |deviations|
      invariant flags == Flags(files[..i], deviations[..i], threshold)
    {
      assert files[..i + 1][..i] == files[..i];
      assert deviations[..i + 1][..i] == deviations[..i];
      if Exceeds(deviations[i], threshold) {
        flags := flags + [Flag(i, files[i], deviations[i].value)];
      }
    }
    assert files[..|files|] == files;
    assert deviations[..|deviations|] == deviations;
  }

  /** The check itself: read the group, average it, then the two loops. */
  method ConsistencyCheck(read: Reader, files: seq<Path>, threshold: real) returns (r: Result<seq<Flag>, Error>)
    ensures r == Check(read, files, threshold)
  {
    if |files| < 2 {
      return Ok([]);
    }
    var loaded := ReadAll(read, files);
    if loaded.None? {
      return Err(Unreadable);
    }
    var spectra := loaded.value;
    var n := |spectra[0]|;
    if !Uniform(spectra, n) {
      return Err(ShapeMismatch);
    }
    var avg := MeanSpectrum(spectra, n);
    var deviations := ComputeDeviations(spectra, avg);
    var flags := ScanDeviations(files, deviations, threshold);
    CheckOfReadGroup(read, files, threshold, spectra);
    return Ok(flags);
  }

  /** Check, once every file of a group of two or more has been read into equal-length spectra. */
  lemma CheckOfReadGroup(read: Reader, files: seq<Path>, threshold: real, spectra: seq<Spectrum>)
    requires |files| >= 2 && ReadAll(read, files) == Some(spectra)
    requires Uniform(spectra, |spectra[0]|)
    ensures Check(read, files, threshold)
      == Ok(Flags(files, Deviations(spectra, MeanSpectrum(spectra, |spectra[0]|)), threshold))
  {
  }

  /** Fewer than two files: no flags and no read at all, whatever the reader does. */
  lemma FewFilesNoFlags(read: Reader, files: seq<Path>, threshold: real)
    requires |files| < 2
    ensures Check(read, files, threshold) == Ok([])
  {
  }

  /** File i is flagged exactly when its mean deviation is strictly above the threshold. */
  lemma FlaggedExactly(read: Reader, files: seq<Path>, threshold: real, spectra: seq<Spectrum>, i: nat)
    requires |files| >= 2 && ReadAll(read, files) == Some(spectra)
    requires Uniform(spectra, |spectra[0]|) && i < |files|
    ensures Check(read, files, threshold).Ok?
    ensures var avg := MeanSpectrum(spectra, |spectra[0]|);
      (exists f :: f in Check(read, files, threshold).value && f.index == i)
        <==> Exceeds(FileDeviation(spectra[i], avg), threshold)
  {
    var avg := MeanSpectrum(spectra, |spectra[0]|);
    var devs := Deviations(spectra, avg);
    FlagsCharacterized(files, devs, threshold);
    if Exceeds(devs[i], threshold) {
      assert Flag(i, files[i], devs[i].value) in Flags(files, devs, threshold);
    }
  }

  /** A deviation sequence that is zero everywhere has mean 0 (or NaN when empty). */
  lemma {:induction false} IdenticalDeviationIsZero(s: Spectrum)
    ensures FileDeviation(s, s) == if s == [] then None else Some(0.0)
  {
    var rel := RelDevs(s, s);
    SumOfZeros(rel);
  }

  /** A group of identical spectra raises no warning for any non-negative threshold. */
  lemma {:induction false} IdenticalSpectraNoFlags(read: Reader, files: seq<Path>, threshold: real, s: Spectrum)
    requires threshold >= 0.0
    requires forall i :: 0 <= i < |files| ==> read(files[i]) == Some(s)
    ensures Check(read, files, threshold) == Ok([])
  {
    if |files| >= 2 {
      var spectra := ReadAll(read, files).value;
      MeanOfCopies(spectra, s);
      var avg := MeanSpectrum(spectra, |s|);
      var devs := Deviations(spectra, avg);
      IdenticalDeviationIsZero(s);
      forall i | 0 <= i < |devs|
        ensures !Exceeds(devs[i], threshold)
      {
        assert spectra[i] == s;
      }
      NothingExceedsNoFlags(files, devs, threshold);
    }
  }

  lemma NothingExceedsNoFlags(files: seq<Path>, devs: seq<Option<real>>, threshold: real)
    requires |files| == |devs|
    requires forall i :: 0 <= i < |devs| ==> !Exceeds(devs[i], threshold)
    ensures Flags(files, devs, threshold) == []
  {
    FlagsCharacterized(files, devs, threshold);
  }
}
