/**
 What the two LCD driver scripts have in common above the signal level: the
 globals they keep (the three flag bytes, the line count and the message
 index), the calls they make to their `write4bits`, and what each such call is
 meant to deliver to the controller.
 */
module Driver {
  import opened Bus
  import opened Hd44780

  /** One call `write4bits(bits, char_mode)`, or an awaited `delayMicroseconds(ms)`. */
  datatype Action = Write(bits: int, charMode: bool) | Wait(ms: nat)

  /** A command write: `write4bits(cmd)` with `char_mode` left at its default. */
  function Command(cmd: bv8): Action
  {
    Write(cmd as int, false)
  }

  /** `Math.abs`. */
  function Abs(x: int): (a: nat)
    ensures a == x || a == -x
  {
    if x < 0 then -x else x
  }

  /** What a single action is meant to put on the bus: `write4bits` sends the
      magnitude of its argument as one byte, in the register `char_mode`
      selects, and drops any value of 256 or more. */
  function Delivers(a: Action): seq<Unit>
  {
    match a
    case Write(bits, charMode) => if Abs(bits) < 256 then [Unit(charMode, Abs(bits))] else []
    case Wait(_) => []
  }

  function Intended(acts: seq<Action>): seq<Unit>
    decreases |acts|
  {
    if |acts| == 0 then [] else Delivers(acts[0]) + Intended(acts[1..])
  }

  lemma {:induction false} IntendedAppend(a1: seq<Action>, a2: seq<Action>)
    ensures Intended(a1 + a2) == Intended(a1) + Intended(a2)
    decreases |a1|
  {
    if |a1| == 0 {
      assert a1 + a2 == a2;
    } else {
      assert (a1 + a2)[1..] == a1[1..] + a2;
      IntendedAppend(a1[1..], a2);
    }
  }

  /** A run of instruction writes, each with a byte-sized argument, delivers
      exactly those bytes as instructions. */
  lemma {:induction false} CommandsIntended(acts: seq<Action>)
    requires forall i :: 0 <= i < |acts| ==> acts[i].Write? && !acts[i].charMode && 0 <= acts[i].bits < 256
    ensures Intended(acts) == seq(|acts|, i requires 0 <= i < |acts| => Unit(false, acts[i].bits))
    decreases |acts|
  {
    if |acts| > 0 {
      CommandsIntended(acts[1..]);
    }
  }

  /** What showing a text should deliver: a newline becomes the instruction
      that moves to the start of the second line, every other character below
      U+0100 its character code as data. `write4bits` refuses any code of 256
      or more, so a character from U+0100 up delivers nothing; one outside the
      Basic Multilingual Plane is two UTF-16 code units, both at least 0xD800,
      so it too delivers nothing. */
  function TextUnits(text: string): seq<Unit>
    decreases |text|
  {
    if |text| == 0 then []
    else
      (if text[0] == '\n' then [Unit(false, NEWLINE as int)]
       else if (text[0] as int) < 256 then [Unit(true, text[0] as int)]
       else [])
      + TextUnits(text[1..])
  }

  /** `message(text)` in both scripts: one call per character, a newline as the command
      `LCD_NEWLINE`, any other character as its code in character mode. */
  function Message(text: string): (acts: seq<Action>)
    ensures |acts| == |text|
    ensures forall i :: 0 <= i < |text| ==> acts[i].Write? && (acts[i].charMode <==> text[i] != '\n')
    decreases |text|
  {
    if |text| == 0 then []
    else
      (if text[0] == '\n' then [Command(NEWLINE)] else [Write(text[0] as int, true)])
      + Message(text[1..])
  }

  lemma {:induction false} MessageIntended(text: string)
    ensures Intended(Message(text)) == TextUnits(text)
    decreases |text|
  {
    if |text| > 0 {
      var head := if text[0] == '\n' then [Command(NEWLINE)] else [Write(text[0] as int, true)];
      IntendedAppend(head, Message(text[1..]));
      assert head[1..] == [];
      MessageIntended(text[1..]);
    }
  }

  /** The clear instruction followed by a text: what clearing and then
      showing the text is meant to deliver. */
  function ClearThen(text: string): seq<Unit>
  {
    [Unit(false, 0x01)] + TextUnits(text)
  }

  /** `lcdMessages[i]`; an index outside the table reads `undefined`, over
      which `for (char in ...)` runs no iteration. */
  function Lookup(msgs: seq<string>, i: int): string
  {
    if 0 <= i < |msgs| then msgs[i] else ""
  }

  /** The `displayControl`, `displayMode` and `displayFunction` globals. */
  datatype Flags = Flags(control: bv8, mode: bv8, config: bv8)

  /** Each flag byte only holds bits of its own instruction's operand. */
  predicate FlagsFit(f: Flags)
  {
    f.control < 8 && f.mode < 4 && f.config & 0xE3 == 0
  }

  /** The driver's flag bytes are what the controller's registers hold. */
  predicate Agrees(f: Flags, r: Registers)
  {
    && FlagsFit(f)
    && r.entryMode == f.mode as int
    && r.displayControl == f.control as int
    && r.functionSet == f.config as int
  }

  /** All module-level driver state. */
  datatype State = State(flags: Flags, numlines: int, currline: int, messageIndex: int)

  /** The state a driver operation leaves and the calls it made, in order. */
  datatype Transition = Transition(next: State, acts: seq<Action>)

  lemma CommandDelivers(cmd: bv8)
    ensures Intended([Command(cmd)]) == [Unit(false, cmd as int)]
  {
    assert [Command(cmd)][1..] == [];
  }

  lemma WaitDeliversNothing(ms: nat)
    ensures Intended([Wait(ms)]) == []
  {
    assert [Wait(ms)][1..] == [];
  }

  /** The composite display-control command writes its flag byte to the
      controller's display on/off register and nothing else. */
  lemma DisplayControlCommand(r: Registers, c: bv8)
    requires c < 8
    ensures Execute(r, Unit(false, (DISPLAY_CONTROL | c) as int)) == r.(displayControl := c as int)
  {
  }

  /** The composite entry-mode command writes its flag byte to the entry mode register. */
  lemma EntryModeCommand(r: Registers, m: bv8)
    requires m < 4
    ensures Execute(r, Unit(false, (ENTRY_MODE_SET | m) as int)) == r.(entryMode := m as int)
  {
  }
}
