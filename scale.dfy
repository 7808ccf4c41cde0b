/** `ConvertFreqToScale`: a frequency becomes a note label such as "C4",
    made of a pitch-class name from a twelve-entry table that starts at A and
    an octave number. The floating-point step (`12 * log2(freq / 27.5)`,
    rounded) is taken as given: the model receives its rounded result. */
module Scale {

  import opened Wrappers
  import opened CSharpInt

  /** The pitch-class table (`scales`). It starts at A, so octave numbers
      step up at A rather than at C. */
  const Scales: seq<string> := ["A", "A#", "B", "C", "C#", "D", "D#", "E", "F", "F#", "G", "G#"]

  /** What the floating-point part of the conversion yields: a frequency
      that is not positive, or `n`, the number of equal-tempered semitones
      above A0 (27.5 Hz) that `12 * log2(freq / 27.5)` rounds to. */
  datatype Pitch = NonPositive | Semitone(n: int)

  /** The exception C# raises when `scales` is indexed outside its bounds. */
  datatype ScaleError = IndexOutOfRange(index: int)

  /** The frequency `freq` computed by the scan, with `semitoneOf` standing
      for the rounded logarithm. */
  function PitchOf(freq: int, semitoneOf: int -> int): (p: Pitch)
    ensures p.NonPositive? <==> freq <= 0
  {
    if freq <= 0 then NonPositive else Semitone(semitoneOf(freq))
  }

  /** The octave number written after the pitch class: the rounded value
      divided by 12, truncated toward zero. With the remainder used as the
      table index it gives back the semitone count, and for a non-negative
      count it is the ordinary quotient. */
  function Octave(n: int): (o: int)
    ensures n == 12 * o + Rem(n, 12)
    ensures n >= 0 ==> o == n / 12
    ensures n < 0 ==> o == -((-n) / 12)
  {
    Div(n, 12)
  }

  /** C#'s remainder by 12 is negative exactly for a negative semitone count
      that is not a multiple of 12. */
  lemma RemTwelveNegative(n: int)
    ensures Rem(n, 12) < 0 <==> n < 0 && n % 12 != 0
  {
  }

  /** The label for a pitch: "" when the frequency is not positive, otherwise
      `scales[n % 12]` followed by the decimal octave, where a negative index
      (a negative `n` that is not a multiple of 12) raises the exception. */
  function ConvertFreqToScale(p: Pitch): (r: Result<string, ScaleError>)
    ensures p.NonPositive? ==> r == Success("")
    ensures p.Semitone? ==> (r.Failure? <==> p.n < 0 && p.n % 12 != 0)
    ensures r.Failure? ==> -12 < r.error.index < 0
    ensures p.Semitone? && r.Success? ==> |r.value| >= 2
  {
    match p
    case NonPositive => Success("")
    case Semitone(n) =>
      var i := Rem(n, 12);
      RemTwelveNegative(n);
      if 0 <= i < |Scales| then Success(Scales[i] + IntToString(Octave(n)))
      else Failure(IndexOutOfRange(i))
  }

  /** Position of a pitch-class name in the table. */
  const ClassIndex: map<string, int> :=
    map["A" := 0, "A#" := 1, "B" := 2, "C" := 3, "C#" := 4, "D" := 5,
        "D#" := 6, "E" := 7, "F" := 8, "F#" := 9, "G" := 10, "G#" := 11]

  lemma ClassIndexInvertsScales(i: int)
    requires 0 <= i < |Scales|
    ensures Scales[i] in ClassIndex && ClassIndex[Scales[i]] == i
    ensures |Scales[i]| == 1 || (|Scales[i]| == 2 && Scales[i][1] == '#')
  {
  }

  /** Reads a label back into its semitone count: the pitch class is one
      letter, or two when the second character is '#', and the rest is the
      octave number. */
  function DecodeLabel(text: string): Option<int>
  {
    if |text| == 0 then None
    else
      var classLength := if |text| >= 2 && text[1] == '#' then 2 else 1;
      var name := text[..classLength];
      match ParseInt(text[classLength..])
      case Some(octave) => if name in ClassIndex then Some(12 * octave + ClassIndex[name]) else None
      case None => None
  }

  /** Every label the conversion produces decodes back to its semitone count. */
  lemma LabelRoundTrip(n: int)
    requires ConvertFreqToScale(Semitone(n)).Success?
    ensures DecodeLabel(ConvertFreqToScale(Semitone(n)).value) == Some(n)
  {
    var i := Rem(n, 12);
    RemTwelveNegative(n);
    var name := Scales[i];
    var digits := IntToString(Octave(n));
    var text := name + digits;
    assert ConvertFreqToScale(Semitone(n)).value == text;
    ClassIndexInvertsScales(i);
    assert digits[0] == '-' || IsDigit(digits[0]);
    var classLength := if |text| >= 2 && text[1] == '#' then 2 else 1;
    assert classLength == |name|;
    assert text[..classLength] == name;
    assert text[classLength..] == digits;
    IntRoundTrip(Octave(n));
  }

  /** Distinct semitone counts never share a label. */
  lemma LabelInjective(n1: int, n2: int)
    requires ConvertFreqToScale(Semitone(n1)).Success?
    requires ConvertFreqToScale(Semitone(n1)) == ConvertFreqToScale(Semitone(n2))
    ensures n1 == n2
  {
    LabelRoundTrip(n1);
    LabelRoundTrip(n2);
  }

  /** For a non-negative count the label is the table entry at `n mod 12`
      followed by the octave `n / 12` in decimal. */
  lemma LabelOfNonNegative(n: int)
    requires n >= 0
    ensures ConvertFreqToScale(Semitone(n)) == Success(Scales[n % 12] + NatToString(n / 12))
  {
  }

  lemma SingleDigit(d: int)
    requires 0 <= d < 10
    ensures NatToString(d) == [DigitChar(d)] && IntToString(d) == NatToString(d)
  {
  }

  /** The label "C4" belongs to exactly one semitone count, 51 (three
      semitones above A4 = 440 Hz, about 523 Hz). */
  lemma LabelC4(n: int)
    ensures ConvertFreqToScale(Semitone(n)) == Success("C4") <==> n == 51
  {
    LabelOfNonNegative(51);
    SingleDigit(4);
    assert Scales[3] + [DigitChar(4)] == "C4";
    if ConvertFreqToScale(Semitone(n)) == Success("C4") {
      LabelInjective(n, 51);
    }
  }

  /** The label "A5" belongs to exactly one semitone count, 60 (880 Hz). */
  lemma LabelA5(n: int)
    ensures ConvertFreqToScale(Semitone(n)) == Success("A5") <==> n == 60
  {
    LabelOfNonNegative(60);
    SingleDigit(5);
    assert Scales[0] + [DigitChar(5)] == "A5";
    if ConvertFreqToScale(Semitone(n)) == Success("A5") {
      LabelInjective(n, 60);
    }
  }

  /** Middle C (261.6 Hz, 39 semitones above A0) is labelled "C3", not "C4",
      because the octave number steps up at A. */
  lemma MiddleCIsC3()
    ensures ConvertFreqToScale(Semitone(39)) == Success("C3")
  {
    LabelOfNonNegative(39);
    SingleDigit(3);
    assert Scales[3] + [DigitChar(3)] == "C3";
  }

  /** Going up one semitone from a non-negative count moves to the next
      pitch class in table order, and the octave number grows by one exactly
      when the new pitch class is "A". */
  lemma OctaveStepsAtA(n: int)
    requires n >= 0
    ensures Rem(n + 1, 12) == (Rem(n, 12) + 1) % 12
    ensures Octave(n + 1) == Octave(n) + (if Scales[Rem(n + 1, 12)] == "A" then 1 else 0)
  {
  }
}
