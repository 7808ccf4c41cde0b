/** The per-frame pipeline of `MicrophoneManager`: detect the strongest
    frequency, turn it into a note label, store the label in the three-slot
    ring buffer, and send the command the buffer confirms, if any. The
    component's mutable state is the buffer and its cursor; the ghost logs
    record every label stored and every command sent. */
module Microphone {

  import opened Wrappers
  import opened Spectrum
  import opened Scale
  import opened Commands
  import opened Window

  /** The label one frame produces from its spectrum: the scan's frequency
      through the rounded logarithm `semitoneOf` and the label table. A
      spectrum with no bin above the noise threshold, or a sample rate below
      2 Hz, gives a frequency of at most 0 and so the silence label "". */
  ghost function FrameLabel(spectrum: seq<real>, outputSampleRate: int, semitoneOf: int -> int)
    : (r: Result<string, ScaleError>)
    requires |spectrum| == Resolution
    ensures NoneAccepted(spectrum, Threshold) ==> r == Success("")
    ensures outputSampleRate <= 1 ==> r == Success("")
    ensures r.Failure? ==> semitoneOf(BinFrequency(StrongestBinOf(spectrum, Threshold), outputSampleRate)) < 0
  {
    var freq := BinFrequency(StrongestBinOf(spectrum, Threshold), outputSampleRate);
    ConvertFreqToScale(PitchOf(freq, semitoneOf))
  }

  class MicrophoneManager {
    /** Whether a microphone was found at start-up (`micConnected`). */
    const micConnected: bool

    /** The label buffer (`strBuffer`) and its cursor (`strIndex`). */
    var strBuffer: array<Slot>
    var strIndex: int

    /** Every label stored in the buffer, oldest first. */
    ghost var Observed: seq<string>

    /** Every command handed to the drone controller, oldest first. */
    ghost var Sent: seq<string>

    /** The buffer is the ring obtained by storing `Observed` from a fresh
        start, and `Sent` holds what those ticks sent. */
    ghost predicate Valid()
      reads this, strBuffer
    {
      strBuffer.Length == MaxStrCount &&
      Ring(strBuffer[..], strIndex) == Run(Observed) &&
      Sent == SentLog(Observed)
    }

    /** A fresh component: three null slots, cursor 0, nothing observed or
        sent. `connected` is the outcome of the microphone set-up. */
    constructor (connected: bool)
      ensures Valid() && fresh(strBuffer)
      ensures micConnected == connected
      ensures strBuffer[..] == [None, None, None] && strIndex == 0
      ensures Observed == [] && Sent == []
    {
      micConnected := connected;
      strBuffer := new Slot[MaxStrCount](_ => None);
      strIndex := 0;
      Observed := [];
      Sent := [];
      new;
      assert strBuffer[..] == [None, None, None];
    }

    /** The tail of `Update`: store the frame's label at the cursor, advance
        the cursor with wrap-around, then send the command the buffer
        confirms. Only the slot under the old cursor changes. */
    method StoreAndSend(scale: string) returns (cmd: Option<string>)
      requires Valid()
      modifies this`strIndex, this`Observed, this`Sent, strBuffer
      ensures Valid()
      ensures strBuffer[..] == old(strBuffer[..])[old(strIndex) := Some(scale)]
      ensures strIndex == (old(strIndex) + 1) % MaxStrCount
      ensures Observed == old(Observed) + [scale]
      ensures cmd == SendCommand(strBuffer[..])
      ensures cmd == match StableLabel(Observed) case Some(key) => CommandFor(key) case None => None
      ensures Sent == old(Sent) + match cmd case Some(c) => [c] case None => []
    {
      ghost var before := Ring(strBuffer[..], strIndex);
      strBuffer[strIndex] := Some(scale);
      strIndex := strIndex + 1;
      if strIndex >= MaxStrCount {
        strIndex := 0;
      }
      Observed := Observed + [scale];
      assert Observed[..|Observed| - 1] == old(Observed);
      assert Ring(strBuffer[..], strIndex) == Push(before, scale);
      cmd := SendCommand(strBuffer[..]);
      CommandAfterStable(Observed);
      Sent := Sent + match cmd case Some(c) => [c] case None => [];
    }

    /** `Update`, once per frame. Without a microphone nothing happens. A
        label conversion that raises (a negative table index) aborts the
        frame before the buffer is touched. Otherwise the label is stored
        and at most one command is sent. */
    method Update(spectrum: array<real>, outputSampleRate: int, semitoneOf: int -> int)
      returns (cmd: Option<string>)
      requires Valid() && spectrum.Length == Resolution
      modifies this`strIndex, this`Observed, this`Sent, strBuffer
      ensures Valid()
      ensures var frame := FrameLabel(old(spectrum[..]), outputSampleRate, semitoneOf);
        if !micConnected || frame.Failure? then
          cmd == None && strBuffer[..] == old(strBuffer[..]) && strIndex == old(strIndex) &&
          Observed == old(Observed) && Sent == old(Sent)
        else
          strBuffer[..] == old(strBuffer[..])[old(strIndex) := Some(frame.value)] &&
          strIndex == (old(strIndex) + 1) % MaxStrCount &&
          Observed == old(Observed) + [frame.value] &&
          cmd == SendCommand(strBuffer[..]) &&
          cmd == (match StableLabel(Observed) case Some(key) => CommandFor(key) case None => None) &&
          Sent == old(Sent) + match cmd case Some(c) => [c] case None => []
    {
      if !micConnected {
        return None;
      }
      var freq := DetectStrongestFrequency(spectrum, Threshold, outputSampleRate);
      var scale := ConvertFreqToScale(PitchOf(freq, semitoneOf));
      if scale.Failure? {
        return None;
      }
      cmd := StoreAndSend(scale.value);
    }
  }

  /** Three frames in a row whose strongest frequency rounds to semitone 51
      ("C4") make a fresh component send "takeoff" on the third frame. */
  method TakeoffAfterThreeFrames(spectrum: array<real>, outputSampleRate: int, semitoneOf: int -> int)
    returns (first: Option<string>, second: Option<string>, third: Option<string>)
    requires spectrum.Length == Resolution
    requires BinFrequency(StrongestBinOf(spectrum[..], Threshold), outputSampleRate) > 0
    requires semitoneOf(BinFrequency(StrongestBinOf(spectrum[..], Threshold), outputSampleRate)) == 51
    ensures first == None && second == None && third == Some("takeoff")
  {
    LabelC4(51);
    var m := new MicrophoneManager(true);
    first := m.Update(spectrum, outputSampleRate, semitoneOf);
    second := m.Update(spectrum, outputSampleRate, semitoneOf);
    third := m.Update(spectrum, outputSampleRate, semitoneOf);
    assert m.Observed == ["C4", "C4", "C4"];
    assert StableLabel(m.Observed) == Some("C4");
    CommandForCases("C4");
    assert third == CommandFor("C4");
  }
}
