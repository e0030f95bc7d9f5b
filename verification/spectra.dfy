/**
 * Spectrum reading and aggregation: `read_counts` and `sum_spectra`
 * (DDCS.py:169-175), plus the per-channel mean that `consistency_check`
 * takes with `spectra.mean(axis=0)`.
 *
 * Counts are exact reals; a spectrum is aligned with another one by
 * position only (index j is channel j + 1).
 */
module Spectra {
  import opened Wrappers

  type Path = string

  /** One file's counts, one entry per row (channel) of the file. */
  type Spectrum = seq<real>

  /** What makes an operation raise: a file that cannot be read, or spectra of unequal length. */
  datatype Error = Unreadable | ShapeMismatch

  /**
   * How files are read by `read_counts`: the whitespace-separated table
   * parser is external, so a reader is a parameter. It stands for `Column2`
   * applied to the parsed rows of the file; `None` means the parse or the
   * column-2 projection raised.
   */
  type Reader = Path -> Option<Spectrum>

  function Abs(x: real): (r: real)
    ensures r >= 0.0 && (r == x || r == -x)
  {
    if x < 0.0 then -x else x
  }

  /** Sum of a sequence of reals. */
  function Sum(xs: seq<real>): real
  {
    if xs == [] then 0.0 else Sum(xs[..|xs| - 1]) + xs[|xs| - 1]
  }

  /** numpy's `mean` of a one-dimensional array: NaN (here `None`) when it is empty. */
  function MeanOf(xs: seq<real>): (r: Option<real>)
    ensures r.None? <==> xs == []
    ensures r.Some? ==> r.value * (|xs| as real) == Sum(xs)
  {
    if xs == [] then None else Some(Sum(xs) / (|xs| as real))
  }

  lemma {:induction false} SumOfZeros(xs: seq<real>)
    requires forall i :: 0 <= i < |xs| ==> xs[i] == 0.0
    ensures Sum(xs) == 0.0
  {
    if xs != [] {
      SumOfZeros(xs[..|xs| - 1]);
    }
  }

  /**
   * `df.iloc[:, 2].values` on a parsed table: the third column of every row.
   * An empty file and a table with fewer than three columns make the read raise.
   */
  function Column2(rows: seq<seq<real>>): (r: Option<Spectrum>)
    ensures r.Some? <==> rows != [] && forall i :: 0 <= i < |rows| ==> |rows[i]| > 2
    ensures r.Some? ==> |r.value| == |rows| && forall i :: 0 <= i < |rows| ==> r.value[i] == rows[i][2]
  {
    if rows != [] && forall i :: 0 <= i < |rows| ==> |rows[i]| > 2
    then Some(seq(|rows|, i requires 0 <= i < |rows| && |rows[i]| > 2 => rows[i][2]))
    else None
  }

  /** `[self.read_counts(f) for f in files]`: every file read in order; the first failure aborts. */
  function ReadAll(read: Reader, files: seq<Path>): (r: Option<seq<Spectrum>>)
    ensures r.Some? <==> forall i :: 0 <= i < |files| ==> read(files[i]).Some?
    ensures r.Some? ==> |r.value| == |files| && forall i :: 0 <= i < |files| ==> r.value[i] == read(files[i]).value
  {
    if files == [] then Some([])
    else
      var k := |files| - 1;
      match ReadAll(read, files[..k])
      case None => None
      case Some(front) =>
        match read(files[k])
        case None => None
        case Some(s) => Some(front + [s])
  }

  /** Every spectrum has n channels, so `np.array(spectra)` is a proper two-dimensional array. */
  predicate Uniform(spectra: seq<Spectrum>, n: nat)
  {
    forall i :: 0 <= i < |spectra| ==> |spectra[i]| == n
  }

  /** Reference definition: the counts at channel position j, added over all files. */
  function ChannelTotal(spectra: seq<Spectrum>, j: nat): real
    requires forall i :: 0 <= i < |spectra| ==> j < |spectra[i]|
  {
    if spectra == [] then 0.0
    else ChannelTotal(spectra[..|spectra| - 1], j) + spectra[|spectra| - 1][j]
  }

  function Zeros(n: nat): (r: Spectrum)
    ensures |r| == n && forall j :: 0 <= j < n ==> r[j] == 0.0
  {
    seq(n, _ => 0.0)
  }

  /** Element-wise sum of two spectra of the same length. */
  function Add(a: Spectrum, b: Spectrum): (r: Spectrum)
    requires |a| == |b|
    ensures |r| == |a| && forall j :: 0 <= j < |a| ==> r[j] == a[j] + b[j]
  {
    seq(|a|, j requires 0 <= j < |a| => a[j] + b[j])
  }

  /** `spectra.sum(axis=0)`: the spectra folded together one whole row at a time. */
  function Total(spectra: seq<Spectrum>, n: nat): (r: Spectrum)
    requires Uniform(spectra, n)
    ensures |r| == n
    ensures forall j :: 0 <= j < n ==> r[j] == ChannelTotal(spectra, j)
  {
    if spectra == [] then Zeros(n)
    else
      var k := |spectra| - 1;
      assert Uniform(spectra[..k], n);
      Add(Total(spectra[..k], n), spectra[k])
  }

  /**
   * `sum_spectra` once the files are read: defined on a non-empty list (both
   * callers check for that first); spectra of unequal length make numpy raise.
   */
  function SumSpectra(spectra: seq<Spectrum>): (r: Option<Spectrum>)
    requires spectra != []
    ensures r.Some? <==> Uniform(spectra, |spectra[0]|)
    ensures r.Some? ==> |r.value| == |spectra[0]|
    ensures r.Some? ==> forall j :: 0 <= j < |r.value| ==> r.value[j] == ChannelTotal(spectra, j)
  {
    if Uniform(spectra, |spectra[0]|) then Some(Total(spectra, |spectra[0]|)) else None
  }

  /** `spectra.mean(axis=0)` for a non-empty, uniform group. */
  function MeanSpectrum(spectra: seq<Spectrum>, n: nat): (r: Spectrum)
    requires spectra != [] && Uniform(spectra, n)
    ensures |r| == n
    ensures forall j :: 0 <= j < n ==> r[j] == ChannelTotal(spectra, j) / (|spectra| as real)
  {
    var t := Total(spectra, n);
    seq(n, j requires 0 <= j < n => t[j] / (|spectra| as real))
  }

  /** A group of k copies of one spectrum adds up to k times it at every channel. */
  lemma {:induction false} ChannelTotalOfCopies(spectra: seq<Spectrum>, s: Spectrum, j: nat)
    requires j < |s|
    requires forall i :: 0 <= i < |spectra| ==> spectra[i] == s
    ensures ChannelTotal(spectra, j) == (|spectra| as real) * s[j]
  {
    if spectra != [] {
      ChannelTotalOfCopies(spectra[..|spectra| - 1], s, j);
    }
  }

  /** The mean of a group of identical spectra is that spectrum. */
  lemma MeanOfCopies(spectra: seq<Spectrum>, s: Spectrum)
    requires spectra != []
    requires forall i :: 0 <= i < |spectra| ==> spectra[i] == s
    ensures Uniform(spectra, |s|) && MeanSpectrum(spectra, |s|) == s
  {
    var m := MeanSpectrum(spectra, |s|);
    var k := |spectra| as real;
    forall j | 0 <= j < |s|
      ensures m[j] == s[j]
    {
      ChannelTotalOfCopies(spectra, s, j);
      assert m[j] == ChannelTotal(spectra, j) / k;
      Cancel(s[j], k);
    }
  }

  lemma Cancel(x: real, k: real)
    requires k > 0.0
    ensures (k * x) / k == x
  {
  }
}
