# TelloFlute pitch-to-command pipeline, modelled in Dafny

TelloFlute flies a Tello drone by whistling or playing a flute into a microphone.
Once per frame, `MicrophoneManager.Update` does four things:

- It scans the 1024-bin magnitude spectrum for its strongest bin above a noise threshold.
- It converts that bin into a frequency and the frequency into a note label such as `"C4"`.
- It stores the label in a three-slot ring buffer.
- When every slot holds the same label and that label is in a fixed table, it sends one command string (`"takeoff"`, `"forward 50"`, …) to the drone.

The model has seven modules:

- `Wrappers` holds the `Option` and `Result` datatypes. `Option` stands for a slot that may be null and for a command that may not be sent. `Result` stands for a label conversion that may raise.
- `CSharpInt` models C#'s truncating `/` and `%` and `int.ToString()`, with a parser proved to invert it.
- `Spectrum` models the scan in `DetectStrongestFrequency` as a loop over an `array<real>`. The loop is proved against a declarative definition of its result: the earliest accepted bin of maximal magnitude, or bin 0 when no bin is accepted. Existence and uniqueness of that result are proved. The module also turns the bin index into hertz in C# integer arithmetic.
- `Scale` models `ConvertFreqToScale` after the floating-point logarithm. Its input is the rounded semitone count `n`, or the case where the frequency is not positive. It builds `scales[n % 12] + (n / 12)` with C# semantics. It returns an error where C# throws on a negative index. A decoder is proved to invert the labels.
- `Commands` models `DetectKey` and the `SendCommand` if/else chain over the buffer's contents. The chain is proved equal to a first-match lookup in the command table, applied to the label the whole buffer agrees on.
- `Window` is the ring buffer as a value (`Push`, `Run`). It holds the main theorem: from a fresh buffer, the window confirms a label exactly when the last three labels stored are that label. It also proves that a held note sends its command again on every tick.
- `Microphone` is the class `MicrophoneManager`. Its fields are the `strBuffer` array and the `strIndex` cursor. Ghost logs record the labels stored and the commands sent. It has the methods `StoreAndSend` (lines 208-216) and `Update`.

Some behaviours of the code are worth stating plainly, because they differ from what musical convention or the command names suggest:

- The label table starts at A, so octave numbers step up at A rather than at C.
- Semitone 51 above A0 (about 523 Hz) is `"C4"`.
- Middle C (261.6 Hz, semitone 39) is labelled `"C3"`, which sends no command.
- A negative remainder is used as the table index as it is. The indexing raises, and the model returns `Failure(IndexOutOfRange(i))`.
- Nothing special happens before the buffer has filled. The initial nulls simply never match a key.
- Commands are not edge-triggered: a held note sends its command again on every frame.

## Model

| member | source | states |
|---|---|---|
| CSharpInt.Div | TelloFlute/Assets/TelloFlute/Scripts/MicrophoneManager.cs:246 | C# integer division by a positive divisor truncates toward zero: the quotient times the divisor lies within one divisor of the dividend and has the dividend's sign |
| CSharpInt.Rem | TelloFlute/Assets/TelloFlute/Scripts/MicrophoneManager.cs:270 | C# remainder: dividend = divisor * Div + Rem, absolute value below the divisor, sign of the dividend |
| CSharpInt.IntToString | TelloFlute/Assets/TelloFlute/Scripts/MicrophoneManager.cs:275 | `octave.ToString()` is non-empty and starts with a minus sign exactly for a negative octave |
| CSharpInt.IntRoundTrip | TelloFlute/Assets/TelloFlute/Scripts/MicrophoneManager.cs:275 | `octave.ToString()` is read back exactly by ParseInt, so distinct octaves give distinct strings |
| Spectrum.ScanStep | TelloFlute/Assets/TelloFlute/Scripts/MicrophoneManager.cs:237-244 | one loop step (take bin i iff it exceeds the running maximum and the threshold) keeps "earliest strongest accepted bin, or 0" and the running maximum correct |
| Spectrum.StrongestBinExists | TelloFlute/Assets/TelloFlute/Scripts/MicrophoneManager.cs:234-244 | every spectrum has an index meeting the scan's specification |
| Spectrum.StrongestBinUnique | TelloFlute/Assets/TelloFlute/Scripts/MicrophoneManager.cs:234-244 | at most one index meets it, so the scan's result is determined by the spectrum and threshold |
| Spectrum.StrongestBinOf | TelloFlute/Assets/TelloFlute/Scripts/MicrophoneManager.cs:234-244 | the scan's index: in range; 0 when no bin exceeds the threshold; otherwise an accepted bin (above threshold and 0) at least as strong as every bin and strictly stronger than every earlier bin |
| Spectrum.TieGoesToEarliest | TelloFlute/Assets/TelloFlute/Scripts/MicrophoneManager.cs:239 | among equally strong accepted bins a later one is never chosen, because acceptance needs strict `>` |
| Spectrum.BinFrequency | TelloFlute/Assets/TelloFlute/Scripts/MicrophoneManager.cs:246 | `maxIndex * (rate / 2) / 1024` in C# int arithmetic is 0 for bin 0, non-negative for a non-negative rate, below `rate / 2` for rate >= 2, and at most 0 for rate <= 1 |
| Spectrum.BinFrequencyMonotone | TelloFlute/Assets/TelloFlute/Scripts/MicrophoneManager.cs:246 | a higher bin never gives a lower frequency |
| Spectrum.DetectStrongestFrequency | TelloFlute/Assets/TelloFlute/Scripts/MicrophoneManager.cs:231-248 | the loop returns the frequency of the specified strongest bin; 0 when nothing exceeds the threshold; within [0, rate/2) for rate >= 2 |
| Scale.PitchOf | TelloFlute/Assets/TelloFlute/Scripts/MicrophoneManager.cs:262-269 | a frequency <= 0 takes the silence path; any other goes through the rounded logarithm |
| Scale.ConvertFreqToScale | TelloFlute/Assets/TelloFlute/Scripts/MicrophoneManager.cs:255-277 | "" for a non-positive frequency; an IndexOutOfRange error exactly when n < 0 and n is not a multiple of 12, with index in (-12, 0); otherwise a label of at least two characters |
| Scale.Octave | TelloFlute/Assets/TelloFlute/Scripts/MicrophoneManager.cs:273 | the truncated quotient by 12 together with the C# remainder gives back the semitone count (n = 12 * octave + n % 12); for n >= 0 it is the ordinary quotient, for n < 0 minus the quotient of -n |
| Scale.RemTwelveNegative | TelloFlute/Assets/TelloFlute/Scripts/MicrophoneManager.cs:270 | `n % 12` in C# is negative exactly for negative n not divisible by 12 |
| Scale.LabelOfNonNegative | TelloFlute/Assets/TelloFlute/Scripts/MicrophoneManager.cs:269-275 | for n >= 0 the label is `scales[n mod 12]` followed by the decimal of n / 12 |
| Scale.LabelRoundTrip | TelloFlute/Assets/TelloFlute/Scripts/MicrophoneManager.cs:260-275 | every produced label decodes back to its semitone count |
| Scale.LabelInjective | TelloFlute/Assets/TelloFlute/Scripts/MicrophoneManager.cs:269-275 | two semitone counts with the same label are equal |
| Scale.LabelC4 | TelloFlute/Assets/TelloFlute/Scripts/MicrophoneManager.cs:260-275 | label "C4" iff n = 51 |
| Scale.LabelA5 | TelloFlute/Assets/TelloFlute/Scripts/MicrophoneManager.cs:260-275 | label "A5" iff n = 60 |
| Scale.MiddleCIsC3 | TelloFlute/Assets/TelloFlute/Scripts/MicrophoneManager.cs:258-275 | middle C (semitone 39) is labelled "C3" |
| Scale.OctaveStepsAtA | TelloFlute/Assets/TelloFlute/Scripts/MicrophoneManager.cs:260-273 | for n >= 0, one semitone up moves to the next table entry, and the octave number grows exactly when that entry is "A" |
| Commands.Distinct | TelloFlute/Assets/TelloFlute/Scripts/MicrophoneManager.cs:327 | `list.Distinct()` contains every slot's value and nothing else, and is empty exactly for an empty list |
| Commands.SingleDistinctIffAllEqual | TelloFlute/Assets/TelloFlute/Scripts/MicrophoneManager.cs:327 | one distinct value with `list[0] == key` holds iff the list is non-empty and every slot equals key |
| Commands.DetectKey | TelloFlute/Assets/TelloFlute/Scripts/MicrophoneManager.cs:325-332 | `DetectKey(list, key)` is true iff the list is non-empty and every slot equals key |
| Commands.DetectKeyIffConfirmed | TelloFlute/Assets/TelloFlute/Scripts/MicrophoneManager.cs:325-332 | `DetectKey(list, key)` holds iff key is the label the whole buffer agrees on |
| Commands.AtMostOneKey | TelloFlute/Assets/TelloFlute/Scripts/MicrophoneManager.cs:284-315 | no buffer detects two different keys, so at most one branch of the chain can match |
| Commands.CommandForCases | TelloFlute/Assets/TelloFlute/Scripts/MicrophoneManager.cs:284-315 | the first-match command table maps C4, C#4 to takeoff, D4 forward 50, E4 right 50, F4 back 50, G4 left 50, A5 flip l, B5 flip r, C5 land, anything else to nothing |
| Commands.SendCommand | TelloFlute/Assets/TelloFlute/Scripts/MicrophoneManager.cs:282-316 | the if/else chain sends the table command of the label the whole buffer agrees on, and nothing if the slots disagree or the label is unmapped |
| Commands.CommandForMapped | TelloFlute/Assets/TelloFlute/Scripts/MicrophoneManager.cs:284-315 | exactly the nine table labels map to a command; takeoff exactly for C4 and C#4; only the eight listed strings are ever sent |
| Commands.NullOrSilentBufferSendsNothing | TelloFlute/Assets/TelloFlute/Scripts/MicrophoneManager.cs:87 | a buffer of nulls (its initial state) or of silence labels sends nothing |
| Window.Push | TelloFlute/Assets/TelloFlute/Scripts/MicrophoneManager.cs:208-213 | a tick writes the label at the cursor, leaves the other slots alone and moves the cursor to (cursor + 1) mod 3 |
| Window.RunHoldsRecent | TelloFlute/Assets/TelloFlute/Scripts/MicrophoneManager.cs:87-92 | after n ticks from the fresh buffer the cursor is n mod 3, the last three labels sit just behind it, and slots not yet written are null |
| Window.ConfirmedIffLastThreeAgree | TelloFlute/Assets/TelloFlute/Scripts/MicrophoneManager.cs:208-213 | from a fresh buffer, the whole window agrees on a label iff the last three labels stored are that label; nothing is confirmed in the first two ticks |
| Window.CommandAfterStable | TelloFlute/Assets/TelloFlute/Scripts/MicrophoneManager.cs:208-216 | each tick sends the command of the label the last three ticks agree on, or nothing |
| Window.SustainedLabelRefires | TelloFlute/Assets/TelloFlute/Scripts/MicrophoneManager.cs:284-315 | after any history, a label held three ticks or more sends its command on every such tick (no edge triggering) |
| Window.SustainedLabelLog | TelloFlute/Assets/TelloFlute/Scripts/MicrophoneManager.cs:185-216 | from a fresh start a mapped label held m ticks sends its command exactly m - 2 times |
| Window.UnmappedRunSendsNothing | TelloFlute/Assets/TelloFlute/Scripts/MicrophoneManager.cs:312-316 | if no observed label is in the table (silence included), nothing is ever sent |
| Microphone.FrameLabel | TelloFlute/Assets/TelloFlute/Scripts/MicrophoneManager.cs:201-202 | the frame's label is the scan's frequency through ConvertFreqToScale; no bin above the threshold, or a sample rate below 2, gives the silence label ""; a conversion error needs a negative semitone count |
| Microphone.MicrophoneManager.constructor | TelloFlute/Assets/TelloFlute/Scripts/MicrophoneManager.cs:82-92 | fresh buffer of three nulls, cursor 0, empty logs |
| Microphone.MicrophoneManager.StoreAndSend | TelloFlute/Assets/TelloFlute/Scripts/MicrophoneManager.cs:208-216 | only the old cursor's slot changes, and it now holds the label; the cursor becomes (old + 1) mod 3; the command is SendCommand of the new buffer, which is the command of the label the last three ticks agree on |
| Microphone.MicrophoneManager.Update | TelloFlute/Assets/TelloFlute/Scripts/MicrophoneManager.cs:185-216 | without a microphone, or when the label conversion raises, nothing changes and nothing is sent; otherwise the frame's label is stored and at most one command is sent |
| Microphone.TakeoffAfterThreeFrames | TelloFlute/Assets/TelloFlute/Scripts/MicrophoneManager.cs:284-287 | three frames whose pitch rounds to semitone 51 make a fresh component send nothing, nothing, then "takeoff" |

## Left out

- The UDP transport in TelloController.cs (`UdpClient`, `DatagramSocket`, asynchronous sends). `controller.SendCommand(c)` becomes the returned `Option<string>` and the ghost `Sent` log.
- The click handlers in Command/Takeoff.cs, Command/Command.cs and Command/Land.cs. Each sends one fixed string and bypasses the pipeline.
- `AudioSource.GetSpectrumData` with its Hamming window. The spectrum array is an input of `Update`, as the engine fills it.
- The floating-point `Mathf.Log` and `Mathf.Round` of line 269. `semitoneOf` stands for the rounded semitone count of a positive frequency.
- `Microphone.GetDeviceCaps` with its 48000 Hz fallback, the microphone start-up and its busy-wait, and the `delay`/`timeSamples` float arithmetic of lines 194-199. These are device I/O and timing. Whether a microphone was found is the constructor's `connected` argument.
- The cube visualisation (lines 106-116 and 219-224) and the `freqLabel` text of line 205. These only display values.
- Spectrum.DetectStrongestFrequency: magnitudes are `real`, so single-precision rounding, NaN and infinities are not modelled.
- Spectrum.BinFrequency: 32-bit overflow of `maxIndex * (rate / 2)` is not modelled. It needs an output sample rate above about 4.19 MHz.
- Scale.ConvertFreqToScale: the exception is a `Failure` result, and `Update` aborts the frame on it as Unity does. The exception's propagation and logging are not modelled.
- Scale.Octave: lines 270 and 273 apply `%` and `/` to the `float` returned by `Mathf.Round` and then cast to `int`. The model uses C#'s truncating integer operators instead. They give the same results on whole-number floats of the size a semitone count has.
- CSharpInt.IntToString: `octave.ToString()` formats with the current culture, and the model always writes "-" as the minus sign. Only a negative octave shows the sign, and no label with a negative octave maps to a command.
