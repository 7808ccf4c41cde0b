/** `DetectKey` and `SendCommand`: the label buffer confirms a key only when
    every slot holds it, and an ordered if/else chain turns the confirmed key
    into at most one command string for the drone. */
module Commands {

  import opened Wrappers

  /** One slot of the label buffer; None is C#'s null, the initial content
      of `new string[3]`. */
  type Slot = Option<string>

  /** The distinct values in the buffer (`list.Distinct()`): every slot's
      value, and nothing that is in no slot. */
  function Distinct(list: seq<Slot>): (d: set<Slot>)
    ensures forall i :: 0 <= i < |list| ==> list[i] in d
    ensures forall x :: x in d ==> exists i :: 0 <= i < |list| && list[i] == x
    ensures d == {} <==> |list| == 0
  {
    var d := set i | 0 <= i < |list| :: list[i];
    assert |list| > 0 ==> list[0] in d;
    d
  }

  lemma SingletonMembers(s: set<Slot>, x: Slot, y: Slot)
    requires |s| == 1 && x in s && y in s
    ensures x == y
  {
    var rest := s - {x};
    assert |rest| == 0;
  }

  /** A non-empty buffer has exactly one distinct value, and its first slot
      holds `key`, exactly when every slot holds `key`. */
  lemma SingleDistinctIffAllEqual(list: seq<Slot>, key: string)
    ensures (|Distinct(list)| == 1 && |list| > 0 && list[0] == Some(key)) <==>
            |list| > 0 && forall i :: 0 <= i < |list| ==> list[i] == Some(key)
  {
    var d := Distinct(list);
    if |d| == 1 && |list| > 0 && list[0] == Some(key) {
      forall i | 0 <= i < |list|
        ensures list[i] == Some(key)
      {
        SingletonMembers(d, list[0], list[i]);
      }
    }
    if |list| > 0 && forall i :: 0 <= i < |list| ==> list[i] == Some(key) {
      assert d == {Some(key)};
    }
  }

  /** `DetectKey`: the buffer holds exactly one distinct value and its first
      slot is `key`; that is, every slot holds `key`. */
  predicate DetectKey(list: seq<Slot>, key: string): (r: bool)
    ensures r <==> |list| > 0 && forall i :: 0 <= i < |list| ==> list[i] == Some(key)
  {
    SingleDistinctIffAllEqual(list, key);
    |Distinct(list)| == 1 && list[0] == Some(key)
  }

  /** The label every slot agrees on, if every slot holds the same label. */
  function Confirmed(list: seq<Slot>): (r: Option<string>)
  {
    if |list| > 0 && list[0].Some? && forall i :: 0 <= i < |list| ==> list[i] == list[0]
    then list[0] else None
  }

  /** `key` is detected exactly when it is the label the whole buffer
      confirms. */
  lemma DetectKeyIffConfirmed(list: seq<Slot>, key: string)
    ensures DetectKey(list, key) <==> Confirmed(list) == Some(key)
  {
  }

  /** Two keys are never detected in the same buffer, so the order of the
      chain in SendCommand never decides between two matches. */
  lemma AtMostOneKey(list: seq<Slot>, k1: string, k2: string)
    requires DetectKey(list, k1) && DetectKey(list, k2)
    ensures k1 == k2
  {
  }

  /** The command table in the chain's order: label and command string. */
  const CommandTable: seq<(string, string)> := [
    ("C4", "takeoff"), ("C#4", "takeoff"), ("D4", "forward 50"), ("E4", "right 50"),
    ("F4", "back 50"), ("G4", "left 50"), ("A5", "flip l"), ("B5", "flip r"), ("C5", "land")]

  /** The command of the first table row whose label is `key`. */
  function Lookup(table: seq<(string, string)>, key: string): Option<string>
  {
    if table == [] then None
    else if table[0].0 == key then Some(table[0].1)
    else Lookup(table[1..], key)
  }

  function CommandFor(key: string): Option<string>
  {
    Lookup(CommandTable, key)
  }

  /** The table, read row by row. */
  lemma CommandForCases(key: string)
    ensures CommandFor(key) ==
      if key == "C4" || key == "C#4" then Some("takeoff")
      else if key == "D4" then Some("forward 50")
      else if key == "E4" then Some("right 50")
      else if key == "F4" then Some("back 50")
      else if key == "G4" then Some("left 50")
      else if key == "A5" then Some("flip l")
      else if key == "B5" then Some("flip r")
      else if key == "C5" then Some("land")
      else None
  {
    var t := CommandTable;
    assert Lookup(t, key) == if key == "C4" then Some("takeoff") else Lookup(t[1..], key);
    t := t[1..];
    assert Lookup(t, key) == if key == "C#4" then Some("takeoff") else Lookup(t[1..], key);
    t := t[1..];
    assert Lookup(t, key) == if key == "D4" then Some("forward 50") else Lookup(t[1..], key);
    t := t[1..];
    assert Lookup(t, key) == if key == "E4" then Some("right 50") else Lookup(t[1..], key);
    t := t[1..];
    assert Lookup(t, key) == if key == "F4" then Some("back 50") else Lookup(t[1..], key);
    t := t[1..];
    assert Lookup(t, key) == if key == "G4" then Some("left 50") else Lookup(t[1..], key);
    t := t[1..];
    assert Lookup(t, key) == if key == "A5" then Some("flip l") else Lookup(t[1..], key);
    t := t[1..];
    assert Lookup(t, key) == if key == "B5" then Some("flip r") else Lookup(t[1..], key);
    t := t[1..];
    assert Lookup(t, key) == if key == "C5" then Some("land") else Lookup(t[1..], key);
    assert t[1..] == [];
  }

  /** `SendCommand`: the first rule of the chain whose key the buffer
      detects gives the one command sent this tick; with no rule, nothing is
      sent. */
  function SendCommand(list: seq<Slot>): (cmd: Option<string>)
    ensures cmd == match Confirmed(list) case Some(key) => CommandFor(key) case None => None
  {
    DetectKeyCases(list);
    var confirmed := Confirmed(list);
    CommandForCases(if confirmed.Some? then confirmed.value else "");
    if DetectKey(list, "C4") || DetectKey(list, "C#4") then Some("takeoff")
    else if DetectKey(list, "D4") then Some("forward 50")
    else if DetectKey(list, "E4") then Some("right 50")
    else if DetectKey(list, "F4") then Some("back 50")
    else if DetectKey(list, "G4") then Some("left 50")
    else if DetectKey(list, "A5") then Some("flip l")
    else if DetectKey(list, "B5") then Some("flip r")
    else if DetectKey(list, "C5") then Some("land")
    else None
  }

  lemma DetectKeyCases(list: seq<Slot>)
    ensures forall key :: DetectKey(list, key) <==> Confirmed(list) == Some(key)
  {
    forall key
      ensures DetectKey(list, key) <==> Confirmed(list) == Some(key)
    {
      DetectKeyIffConfirmed(list, key);
    }
  }

  /** Only the eight table labels map to a command, and both "C4" and
      "C#4" mean take-off. */
  lemma CommandForMapped(key: string)
    ensures CommandFor(key).Some? <==>
      key in {"C4", "C#4", "D4", "E4", "F4", "G4", "A5", "B5", "C5"}
    ensures CommandFor(key) == Some("takeoff") <==> key == "C4" || key == "C#4"
    ensures CommandFor(key).Some? ==>
      CommandFor(key).value in {"takeoff", "forward 50", "right 50", "back 50", "left 50", "flip l", "flip r", "land"}
  {
    CommandForCases(key);
  }

  /** A buffer of nulls (its initial content) or of silence labels "" sends
      nothing. */
  lemma NullOrSilentBufferSendsNothing(list: seq<Slot>)
    requires forall i :: 0 <= i < |list| ==> list[i] == None || list[i] == Some("")
    ensures SendCommand(list) == None
  {
  }
}
