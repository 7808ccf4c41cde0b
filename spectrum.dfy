/** The strongest-bin scan of `DetectStrongestFrequency`: a linear pass over
    the magnitude spectrum that keeps the first bin whose magnitude strictly
    exceeds both the noise threshold and the best magnitude seen so far, and
    the conversion of that bin index into a frequency in whole hertz. The
    spectrum itself (the engine's windowed FFT) is an input. */
module Spectrum {

  import opened CSharpInt

  /** Number of bins in the spectrum (`resolution`). */
  const Resolution: int := 1024

  /** The noise threshold the pipeline scans with (`threshold`). */
  const Threshold: real := 0.005

  /** Bin `i` can win the scan: its magnitude is above the noise threshold
      and above 0, the running maximum's initial value. */
  predicate Accepted(s: seq<real>, threshold: real, i: int)
    requires 0 <= i < |s|
  {
    s[i] > threshold && s[i] > 0.0
  }

  predicate NoneAccepted(s: seq<real>, threshold: real)
  {
    forall i :: 0 <= i < |s| ==> !Accepted(s, threshold, i)
  }

  /** `k` is what the scan must return: 0 when no bin is accepted, and
      otherwise an accepted bin of maximal magnitude that no earlier bin
      equals (the earliest of the strongest bins). */
  predicate IsStrongestBin(s: seq<real>, threshold: real, k: int)
  {
    if NoneAccepted(s, threshold) then k == 0
    else
      0 <= k < |s| && Accepted(s, threshold, k) &&
      (forall j :: 0 <= j < |s| ==> s[j] <= s[k]) &&
      (forall j :: 0 <= j < k ==> s[j] < s[k])
  }

  /** The scan's running maximum `maxValue` once it has chosen `k`. */
  function RunningMax(s: seq<real>, threshold: real, k: int): real
    requires IsStrongestBin(s, threshold, k)
  {
    if NoneAccepted(s, threshold) then 0.0 else s[k]
  }

  /** At most one index meets the scan's specification. */
  lemma StrongestBinUnique(s: seq<real>, threshold: real, k1: int, k2: int)
    requires IsStrongestBin(s, threshold, k1) && IsStrongestBin(s, threshold, k2)
    ensures k1 == k2
  {
  }

  /** One step of the scan: reading bin `|s|` with magnitude `x` keeps the
      specification when the bin is taken exactly if `x` beats both the
      running maximum and the threshold. */
  lemma ScanStep(s: seq<real>, threshold: real, k: int, x: real)
    requires IsStrongestBin(s, threshold, k)
    ensures var take := x > RunningMax(s, threshold, k) && x > threshold;
            var k' := if take then |s| else k;
            IsStrongestBin(s + [x], threshold, k') &&
            RunningMax(s + [x], threshold, k') == if take then x else RunningMax(s, threshold, k)
  {
    var s' := s + [x];
    var take := x > RunningMax(s, threshold, k) && x > threshold;
    assert forall j :: 0 <= j < |s| ==> s'[j] == s[j];
    if NoneAccepted(s, threshold) {
      if take {
        assert Accepted(s', threshold, |s|);
        forall j | 0 <= j < |s|
          ensures s'[j] < x
        {
          assert !Accepted(s, threshold, j);
        }
      } else {
        forall j | 0 <= j < |s'|
          ensures !Accepted(s', threshold, j)
        {
          if j < |s| {
            assert !Accepted(s, threshold, j);
          }
        }
      }
    } else {
      var j0 :| 0 <= j0 < |s| && Accepted(s, threshold, j0);
      assert Accepted(s', threshold, j0);
      if !take {
        assert Accepted(s', threshold, k);
      }
    }
  }

  /** Some index meets the scan's specification: the scan itself, run as an
      induction over the spectrum. */
  lemma {:induction false} StrongestBinExists(s: seq<real>, threshold: real)
    ensures exists k :: IsStrongestBin(s, threshold, k)
  {
    if |s| == 0 {
      assert IsStrongestBin(s, threshold, 0);
    } else {
      var p := s[..|s| - 1];
      StrongestBinExists(p, threshold);
      var k :| IsStrongestBin(p, threshold, k);
      var x := s[|s| - 1];
      ScanStep(p, threshold, k, x);
      assert p + [x] == s;
    }
  }

  /** The index the scan returns, as a function of the spectrum. */
  ghost function StrongestBinOf(s: seq<real>, threshold: real): (k: int)
    ensures IsStrongestBin(s, threshold, k)
    ensures 0 <= k && (|s| > 0 ==> k < |s|)
  {
    StrongestBinExists(s, threshold);
    var k :| IsStrongestBin(s, threshold, k);
    k
  }

  /** Among equally strong accepted bins the earliest one wins, because a
      later bin must strictly exceed the running maximum to be taken. */
  lemma TieGoesToEarliest(s: seq<real>, threshold: real, i: int, j: int)
    requires 0 <= i < j < |s|
    requires Accepted(s, threshold, i) && s[i] == s[j]
    ensures StrongestBinOf(s, threshold) != j
  {
  }

  lemma MulMono(i: int, j: int, h: int)
    requires 0 <= i <= j && h >= 0
    ensures 0 <= i * h <= j * h
  {
  }

  lemma ProductBelowNyquist(i: int, h: int)
    requires 0 <= i < Resolution
    ensures h >= 0 ==> 0 <= i * h <= (Resolution - 1) * h
    ensures h <= 0 ==> i * h <= 0
  {
    if h >= 0 {
      MulMono(i, Resolution - 1, h);
    } else {
      MulMono(i, Resolution - 1, -h);
    }
  }

  /** Truncating division by a positive constant is monotone on
      non-negative numbers. */
  lemma DivMono(a: int, b: int, c: int)
    requires 0 <= a <= b && c > 0
    ensures Div(a, c) <= Div(b, c)
  {
    var d := Div(a, c) - Div(b, c);
    MulSign(c, d);
    assert c * d == c * Div(a, c) - c * Div(b, c);
  }

  /** The frequency in hertz of bin `maxIndex`:
      `maxIndex * (outputSampleRate / 2) / resolution` in C# `int` arithmetic.
      It lies below the Nyquist frequency and grows with the bin index. */
  function BinFrequency(maxIndex: int, outputSampleRate: int): (freq: int)
    requires 0 <= maxIndex < Resolution
    ensures maxIndex == 0 ==> freq == 0
    ensures outputSampleRate >= 0 ==> freq >= 0
    ensures outputSampleRate >= 2 ==> freq < Div(outputSampleRate, 2)
    ensures outputSampleRate <= 1 ==> freq <= 0
  {
    var nyquist := Div(outputSampleRate, 2);
    ProductBelowNyquist(maxIndex, nyquist);
    Div(maxIndex * nyquist, Resolution)
  }

  /** A higher bin never maps to a lower frequency. */
  lemma BinFrequencyMonotone(i: int, j: int, outputSampleRate: int)
    requires 0 <= i <= j < Resolution && outputSampleRate >= 0
    ensures BinFrequency(i, outputSampleRate) <= BinFrequency(j, outputSampleRate)
  {
    var h := Div(outputSampleRate, 2);
    MulMono(i, j, h);
    DivMono(i * h, j * h, Resolution);
  }

  /** `DetectStrongestFrequency`: scans every bin of the spectrum and converts
      the winning bin into hertz. */
  method DetectStrongestFrequency(spectrum: array<real>, threshold: real, outputSampleRate: int)
    returns (freq: int)
    requires spectrum.Length == Resolution
    ensures freq == BinFrequency(StrongestBinOf(spectrum[..], threshold), outputSampleRate)
    ensures NoneAccepted(spectrum[..], threshold) ==> freq == 0
    ensures outputSampleRate >= 2 ==> 0 <= freq < Div(outputSampleRate, 2)
  {
    var maxValue: real := 0.0;
    var maxIndex := 0;
    for i := 0 to Resolution
      invariant IsStrongestBin(spectrum[..i], threshold, maxIndex)
      invariant 0 <= maxIndex < Resolution
      invariant maxValue == RunningMax(spectrum[..i], threshold, maxIndex)
    {
      ScanStep(spectrum[..i], threshold, maxIndex, spectrum[i]);
      assert spectrum[..i] + [spectrum[i]] == spectrum[..i + 1];
      if spectrum[i] > maxValue && spectrum[i] > threshold {
        maxValue := spectrum[i];
        maxIndex := i;
      }
    }
    assert spectrum[..Resolution] == spectrum[..];
    StrongestBinUnique(spectrum[..], threshold, maxIndex, StrongestBinOf(spectrum[..], threshold));
    freq := BinFrequency(maxIndex, outputSampleRate);
  }
}
