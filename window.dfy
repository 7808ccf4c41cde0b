/** The three-slot label buffer (`strBuffer` with its cursor `strIndex`) as a
    value: each tick writes the new label at the cursor and advances the
    cursor, wrapping to 0 after the last slot. From a fresh buffer the
    window confirms a label exactly when the last three labels observed are
    that label, and it keeps confirming it on every further tick that
    carries it. */
module Window {

  import opened Wrappers
  import opened Commands

  /** Number of slots (`maxStrCount`). */
  const MaxStrCount: int := 3

  datatype Ring = Ring(slots: seq<Slot>, cursor: int)

  predicate Valid(w: Ring)
  {
    |w.slots| == MaxStrCount && 0 <= w.cursor < MaxStrCount
  }

  /** The buffer as the component starts: three nulls, cursor at 0. */
  function Initial(): (w: Ring)
    ensures Valid(w)
  {
    Ring([None, None, None], 0)
  }

  /** One tick of the ring update: store the label at the cursor, then
      advance the cursor and wrap it to 0 when it reaches the capacity. */
  function Push(w: Ring, text: string): (w': Ring)
    requires Valid(w)
    ensures Valid(w')
    ensures w'.slots[w.cursor] == Some(text)
    ensures forall i :: 0 <= i < MaxStrCount && i != w.cursor ==> w'.slots[i] == w.slots[i]
    ensures w'.cursor == (w.cursor + 1) % MaxStrCount
  {
    var next := w.cursor + 1;
    Ring(w.slots[w.cursor := Some(text)], if next >= MaxStrCount then 0 else next)
  }

  /** The buffer after observing `labels` in order from a fresh start. */
  function Run(labels: seq<string>): (w: Ring)
    ensures Valid(w)
  {
    if labels == [] then Initial()
    else Push(Run(labels[..|labels| - 1]), labels[|labels| - 1])
  }

  /** After `n` ticks the cursor is at `n mod 3`, the last (up to three)
      labels sit in the slots just behind it, and slots never written still
      hold null. */
  lemma {:induction false} RunHoldsRecent(labels: seq<string>)
    ensures var n, s := |labels|, Run(labels).slots;
      && Run(labels).cursor == n % MaxStrCount
      && (n >= 1 ==> s[(n - 1) % MaxStrCount] == Some(labels[n - 1]))
      && (n >= 2 ==> s[(n - 2) % MaxStrCount] == Some(labels[n - 2]))
      && (n >= 3 ==> s[(n - 3) % MaxStrCount] == Some(labels[n - 3]))
      && (n == 0 ==> s[0] == None)
      && (n <= 1 ==> s[1] == None)
      && (n <= 2 ==> s[2] == None)
  {
    if labels != [] {
      var n := |labels|;
      var p := labels[..n - 1];
      RunHoldsRecent(p);
      assert Run(labels) == Push(Run(p), labels[n - 1]);
      if n >= 2 {
        assert labels[n - 2] == p[n - 2];
      }
      if n >= 3 {
        assert labels[n - 3] == p[n - 3];
      }
    }
  }

  /** The label the last three observations agree on, if they do. */
  function StableLabel(labels: seq<string>): Option<string>
  {
    var n := |labels|;
    if n >= MaxStrCount && labels[n - 1] == labels[n - 2] == labels[n - 3]
    then Some(labels[n - 1]) else None
  }

  /** From a fresh buffer, the whole window agrees on a label exactly when
      the last three observed labels are that label: nothing is confirmed
      in the first two ticks, and a stale slot never completes a match. */
  lemma ConfirmedIffLastThreeAgree(labels: seq<string>)
    ensures Confirmed(Run(labels).slots) == StableLabel(labels)
  {
    RunHoldsRecent(labels);
    var n := |labels|;
    var s := Run(labels).slots;
    if n < MaxStrCount {
      assert s[2] == None;
    } else {
      var last := Some(labels[n - 1]);
      if n % 3 == 0 {
        assert s == [Some(labels[n - 3]), Some(labels[n - 2]), last];
      } else if n % 3 == 1 {
        assert s == [last, Some(labels[n - 3]), Some(labels[n - 2])];
      } else {
        assert s == [Some(labels[n - 2]), last, Some(labels[n - 3])];
      }
    }
  }

  /** What the buffer sends after observing `labels` from a fresh start. */
  function CommandAfter(labels: seq<string>): Option<string>
  {
    SendCommand(Run(labels).slots)
  }

  /** The command of a tick is the command of the label the last three
      observations agree on, and nothing when they disagree. */
  lemma CommandAfterStable(labels: seq<string>)
    ensures CommandAfter(labels) ==
      match StableLabel(labels) case Some(key) => CommandFor(key) case None => None
  {
    ConfirmedIffLastThreeAgree(labels);
  }

  /** The log of commands sent over a run, one entry per tick that sent one. */
  function SentLog(labels: seq<string>): seq<string>
  {
    if labels == [] then []
    else
      SentLog(labels[..|labels| - 1]) +
      match CommandAfter(labels) case Some(c) => [c] case None => []
  }

  function Repeat(text: string, m: nat): (r: seq<string>)
    ensures |r| == m && forall i :: 0 <= i < m ==> r[i] == text
  {
    if m == 0 then [] else Repeat(text, m - 1) + [text]
  }

  /** No edge triggering: a label held for `m >= 3` ticks confirms on every
      one of those ticks from the third on, whatever came before it. */
  lemma SustainedLabelRefires(before: seq<string>, text: string, m: nat)
    requires m >= MaxStrCount
    ensures CommandAfter(before + Repeat(text, m)) == CommandFor(text)
  {
    var labels := before + Repeat(text, m);
    var n := |labels|;
    assert labels[n - 1] == labels[n - 2] == labels[n - 3] == text;
    CommandAfterStable(labels);
  }

  /** From a fresh start, holding a mapped label for `m` ticks sends its
      command `m - 2` times: nothing on the first two ticks, then once on
      every tick. */
  lemma {:induction false} SustainedLabelLog(text: string, command: string, m: nat)
    requires CommandFor(text) == Some(command)
    ensures SentLog(Repeat(text, m)) == Repeat(command, if m < 2 then 0 else m - 2)
  {
    if m > 0 {
      var labels := Repeat(text, m);
      assert labels[..m - 1] == Repeat(text, m - 1);
      SustainedLabelLog(text, command, m - 1);
      var sent := CommandAfter(labels);
      assert SentLog(labels) == SentLog(Repeat(text, m - 1)) +
        match sent case Some(c) => [c] case None => [];
      CommandAfterStable(labels);
      if m >= 3 {
        assert labels[m - 1] == text && labels[m - 2] == text && labels[m - 3] == text;
        assert StableLabel(labels) == Some(text);
        assert sent == Some(command);
        assert Repeat(command, m - 3) + [command] == Repeat(command, m - 2);
      } else {
        assert StableLabel(labels) == None;
        assert sent == None;
      }
    }
  }

  /** A run in which no label maps to a command (silence "" included) sends
      nothing at all. */
  lemma {:induction false} UnmappedRunSendsNothing(labels: seq<string>)
    requires forall i :: 0 <= i < |labels| ==> CommandFor(labels[i]) == None
    ensures SentLog(labels) == []
  {
    if labels != [] {
      UnmappedRunSendsNothing(labels[..|labels| - 1]);
      CommandAfterStable(labels);
    }
  }
}
