/**
 The 16x2 LCD script `src/nodejs/lcd-simple/index.js`: `write4bits`, `message`,
 `clear`, `init` and the `main` pass that shows the three messages in turn.
 Every call is awaited, so the script's operations run one after another.
 */
module LcdSimple {
  import opened Bits
  import opened Bus
  import opened Hd44780
  import opened Driver

  /** `write4bits(bits, char_mode)`: the magnitude of `bits`, if below 256, is
      turned into an eight-digit binary numeral; RS is driven to `char_mode`,
      then the first four digits and the last four digits each go out as a
      nibble block, digit i on pin `3 - i`, set digits driven high. */
  function Write4Bits(bits: int, charMode: bool): (t: seq<Event>)
    ensures t == [] <==> Abs(bits) >= 256
    ensures t != [] ==> t[0] == SetRS(charMode)
  {
    var bit := Abs(bits);
    if bit < 256 then
      var padded := PadStart(ToBinary(bit), 8, '0');
      var first4Bits := padded[..4];
      var last4Bits := padded[4..];
      [SetRS(charMode)]
      + NibbleBlock(first4Bits, 0, 4, 3, true)
      + NibbleBlock(last4Bits, 0, 4, 3, true)
    else []
  }

  /** A nibble block over the four-digit numeral of x, most significant
      digit first, drives data line k to bit k of x. */
  lemma BlockOfDigits(s: string, x: nat)
    requires |s| == 4
    requires forall j :: 0 <= j < 4 ==> s[j] == Digit(BitOf(x, 3 - j))
    ensures Marked(s, 0, 4, 3, true, AllLow) == NibbleLines(x)
  {
    var m := Marked(s, 0, 4, 3, true, AllLow);
    MarkedAt(s, 0, 4, 3, true, AllLow, 0);
    MarkedAt(s, 0, 4, 3, true, AllLow, 1);
    MarkedAt(s, 0, 4, 3, true, AllLow, 2);
    MarkedAt(s, 0, 4, 3, true, AllLow, 3);
    assert m[0] == BitOf(x, 0) && m[1] == BitOf(x, 1) && m[2] == BitOf(x, 2) && m[3] == BitOf(x, 3);
  }

  /** The numeral's first four digits are the high nibble's numeral. */
  lemma HighDigits(n: nat, padded: string)
    requires n < 256 && |padded| == 8
    requires forall i :: 0 <= i < 8 ==> padded[i] == Digit(BitOf(n, 7 - i))
    ensures forall j :: 0 <= j < 4 ==> padded[..4][j] == Digit(BitOf(n / 16, 3 - j))
  {
    forall j | 0 <= j < 4
      ensures padded[..4][j] == Digit(BitOf(n / 16, 3 - j))
    {
      HighNibbleBit(n, 3 - j);
    }
  }

  /** The numeral's last four digits are the low nibble's numeral. */
  lemma LowDigits(n: nat, padded: string)
    requires n < 256 && |padded| == 8
    requires forall i :: 0 <= i < 8 ==> padded[i] == Digit(BitOf(n, 7 - i))
    ensures forall j :: 0 <= j < 4 ==> padded[4..][j] == Digit(BitOf(n % 16, 3 - j))
  {
    forall j | 0 <= j < 4
      ensures padded[4..][j] == Digit(BitOf(n % 16, 3 - j))
    {
      LowNibbleBit(n, 3 - j);
    }
  }

  /** The first nibble block drives line k to bit k of the high nibble. */
  lemma HighBlockCarriesHighNibble(n: nat)
    requires n < 256
    ensures Marked(PadStart(ToBinary(n), 8, '0')[..4], 0, 4, 3, true, AllLow) == NibbleLines(n / 16)
  {
    var padded := PadStart(ToBinary(n), 8, '0');
    ByteBinary(n);
    HighDigits(n, padded);
    BlockOfDigits(padded[..4], n / 16);
  }

  /** The second nibble block drives line k to bit k of the low nibble. */
  lemma LowBlockCarriesLowNibble(n: nat)
    requires n < 256
    ensures Marked(PadStart(ToBinary(n), 8, '0')[4..], 0, 4, 3, true, AllLow) == NibbleLines(n % 16)
  {
    var padded := PadStart(ToBinary(n), 8, '0');
    ByteBinary(n);
    LowDigits(n, padded);
    BlockOfDigits(padded[4..], n % 16);
  }

  /** For a magnitude below 256 the controller latches exactly two frames,
      both with RS at `char_mode`: the high nibble, then the low nibble, data
      line k carrying bit k. Otherwise nothing at all is transmitted. */
  lemma Write4BitsFrames(l: Lines, bits: int, charMode: bool)
    requires Idle(l)
    ensures Abs(bits) >= 256 ==> Write4Bits(bits, charMode) == []
    ensures Frames(l, Write4Bits(bits, charMode))
            == if Abs(bits) < 256 then ByteFrames(charMode, Abs(bits)) else []
    ensures |Frames(l, Write4Bits(bits, charMode))| % 2 == 0
    ensures Idle(Run(l, Write4Bits(bits, charMode)))
  {
    var n := Abs(bits);
    if n < 256 {
      var padded := PadStart(ToBinary(n), 8, '0');
      ByteBinary(n);
      RsThenTwoBlocks(l, charMode, padded[..4], 0, 4, 3, padded[4..], 0, 4, 3, true);
      HighBlockCarriesHighNibble(n);
      LowBlockCarriesLowNibble(n);
    }
  }

  /** Round trip: the controller decodes the two frames as `16 * hi + lo`
      and recovers `|bits|`, in the register `char_mode` selects. */
  lemma Write4BitsSent(l: Lines, bits: int, charMode: bool)
    requires Idle(l)
    ensures Sent(l, Write4Bits(bits, charMode)) == Delivers(Write(bits, charMode))
  {
    Write4BitsFrames(l, bits, charMode);
    if Abs(bits) < 256 {
      ByteFramesRoundTrip(charMode, Abs(bits));
    }
  }

  /** `write4bits` drives RS to `char_mode` and to no other level. */
  lemma Write4BitsRS(bits: int, charMode: bool)
    ensures forall e <- Write4Bits(bits, charMode) :: e.SetRS? ==> e == SetRS(charMode)
  {
    var n := Abs(bits);
    if n < 256 {
      var padded := PadStart(ToBinary(n), 8, '0');
      NibbleBlockWrites(padded[..4], 0, 4, 3, true);
      NibbleBlockWrites(padded[4..], 0, 4, 3, true);
    }
  }

  /** One call of the script, awaited: a `write4bits` or a wait. */
  function Call(a: Action): seq<Event>
  {
    match a
    case Write(bits, charMode) => Write4Bits(bits, charMode)
    case Wait(ms) => [Delay(ms)]
  }

  /** One call delivers the bytes it is meant to, as whole bytes, and leaves
      the strobe low. */
  lemma CallSent(l: Lines, a: Action)
    requires Idle(l)
    ensures Sent(l, Call(a)) == Delivers(a)
    ensures |Frames(l, Call(a))| % 2 == 0
    ensures Idle(Run(l, Call(a)))
  {
    match a {
      case Write(bits, charMode) =>
        assert Call(a) == Write4Bits(bits, charMode);
        Write4BitsFrames(l, bits, charMode);
        Write4BitsSent(l, bits, charMode);
      case Wait(ms) =>
        SingleStep(l, Delay(ms));
    }
  }

  /** A run of the script's calls, each played to completion before the next;
      the first call that writes begins by selecting its register. */
  function Transmit(acts: seq<Action>): (t: seq<Event>)
    ensures |acts| > 0 && acts[0].Write? && Abs(acts[0].bits) < 256 ==> |t| > 0 && t[0] == SetRS(acts[0].charMode)
    decreases |acts|
  {
    if |acts| == 0 then [] else Call(acts[0]) + Transmit(acts[1..])
  }

  /** The controller receives exactly the bytes the calls are meant to deliver. */
  lemma {:induction false} TransmitSent(l: Lines, acts: seq<Action>)
    requires Idle(l)
    ensures Sent(l, Transmit(acts)) == Intended(acts)
    ensures Idle(Run(l, Transmit(acts)))
    decreases |acts|
  {
    if |acts| > 0 {
      var head := Call(acts[0]);
      var rest := Transmit(acts[1..]);
      RunAppend(l, head, rest);
      CallSent(l, acts[0]);
      TransmitSent(Run(l, head), acts[1..]);
      DecodeAppend(Frames(l, head), Frames(Run(l, head), rest));
    }
  }

  /** Writing a text puts, in order, on the bus: the newline instruction 0xC0
      for a newline, the character code as data for every other character
      below U+0100, and nothing for a character from U+0100 up. */
  lemma MessageSent(l: Lines, text: string)
    requires Idle(l)
    ensures Sent(l, Transmit(Message(text))) == TextUnits(text)
  {
    TransmitSent(l, Message(text));
    MessageIntended(text);
  }

  /** `clear()`: the clear-display command, then a 3000 ms wait. */
  function Clear(): (acts: seq<Action>)
    ensures Intended(acts) == [Unit(false, 0x01)]
    ensures |acts| > 0 && acts[|acts| - 1] == Wait(3000)
  {
    CommandDelivers(CLEAR_DISPLAY);
    WaitDeliversNothing(3000);
    IntendedAppend([Command(CLEAR_DISPLAY)], [Wait(3000)]);
    [Command(CLEAR_DISPLAY)] + [Wait(3000)]
  }

  /** The script's globals before `init()` runs (`numlines = 2`, `currline = 0`,
      `messageIndex = 0`; the flag bytes are still unset). */
  function Boot(unsetFlags: Flags): State
  {
    State(unsetFlags, 2, 0, 0)
  }

  /** `init()`: the 4-bit handshake and configuration commands, then the flag
      bytes in memory, the entry-mode command built from them, and `clear()`. */
  function Init(s: State): (t: Transition)
    ensures FlagsFit(t.next.flags)
    ensures t.next.numlines == s.numlines && t.next.currline == s.currline
    ensures t.next.messageIndex == s.messageIndex
  {
    var displayControl := DISPLAY_ON | CURSOR_OFF | BLINK_OFF;
    var displayFunction := (FOUR_BIT_MODE | ONE_LINE | DOTS_5X8) | TWO_LINE;
    var displayMode := ENTRY_LEFT | ENTRY_SHIFT_DECREMENT;
    Transition(
      s.(flags := Flags(displayControl, displayMode, displayFunction)),
      [Command(0x33), Command(0x32), Command(0x28), Command(0x0C), Command(0x06),
       Command(ENTRY_MODE_SET | displayMode)]
      + Clear())
  }

  /** The bytes `init()` puts on the bus, all as instructions. */
  const InitCommands: seq<Unit> :=
    [Unit(false, 0x33), Unit(false, 0x32), Unit(false, 0x28), Unit(false, 0x0C),
     Unit(false, 0x06), Unit(false, 0x06), Unit(false, 0x01)]

  /** The calls `init()` makes, with the entry-mode byte worked out. */
  lemma InitActs(s: State)
    ensures Init(s).acts
            == [Command(0x33), Command(0x32), Command(0x28), Command(0x0C), Command(0x06), Command(0x06)] + Clear()
  {
    assert ENTRY_MODE_SET | (ENTRY_LEFT | ENTRY_SHIFT_DECREMENT) == 0x06;
  }

  lemma InitIntended(s: State)
    ensures Intended(Init(s).acts) == InitCommands
  {
    var cmds := [Command(0x33), Command(0x32), Command(0x28), Command(0x0C), Command(0x06),
                 Command(0x06)];
    InitActs(s);
    IntendedAppend(cmds, Clear());
    CommandsIntended(cmds);
    assert Intended(cmds) == InitCommands[..6];
  }

  /** After the init bytes the controller's configuration registers hold the
      last function set (0x28), display control (0x0C) and entry mode (0x06)
      written. */
  lemma InitRegisters(r: Registers)
    ensures ExecuteAll(r, InitCommands) == Registers(0x02, 0x04, 0x08)
  {
    var u := InitCommands;
    ExecutePrefix(r, u, 0);
    ExecutePrefix(r, u, 1);
    ExecutePrefix(r, u, 2);
    ExecutePrefix(r, u, 3);
    ExecutePrefix(r, u, 4);
    ExecutePrefix(r, u, 5);
    ExecutePrefix(r, u, 6);
    assert u[..7] == u;
  }

  /** `init()` transmits 0x33, 0x32, 0x28, 0x0C, 0x06, 0x06, 0x01 in that order,
      and afterwards the controller's configuration registers hold exactly the
      flag bytes the script keeps (display on, cursor and blink off; entry left;
      4-bit, two lines, 5x8 dots), whatever they held before. */
  lemma InitSent(l: Lines, s: State, r: Registers)
    requires Idle(l)
    ensures Sent(l, Transmit(Init(s).acts)) == InitCommands
    ensures Init(s).next.flags == Flags(0x04, 0x02, 0x08)
    ensures Agrees(Init(s).next.flags, ExecuteAll(r, InitCommands))
  {
    TransmitSent(l, Init(s).acts);
    InitIntended(s);
    InitRegisters(r);
  }

  /** The bytes one `main` pass is meant to deliver when it starts at index i:
      each of the messages i, i + 1, i + 2, preceded by a clear. */
  function PassUnits(msgs: seq<string>, i: int): seq<Unit>
  {
    ClearThen(Lookup(msgs, i)) + ClearThen(Lookup(msgs, i + 1)) + ClearThen(Lookup(msgs, i + 2))
  }

  /** One round of `main()`: clear, the message, a 2000 ms wait. */
  function Round(text: string): (acts: seq<Action>)
    ensures |acts| == |text| + 3
    ensures acts[0] == Command(CLEAR_DISPLAY) && acts[|acts| - 1] == Wait(2000)
  {
    Clear() + Message(text) + [Wait(2000)]
  }

  lemma RoundIntended(text: string)
    ensures Intended(Round(text)) == ClearThen(text)
  {
    var w := [Wait(2000)];
    assert Intended(w) == [] by { assert w[1..] == []; }
    MessageIntended(text);
    IntendedAppend(Clear(), Message(text));
    IntendedAppend(Clear() + Message(text), w);
  }

  /** `main()`: three rounds at the (post-incremented) index; the index is
      reset to 0 at the end. */
  function MainPass(s: State, msgs: seq<string>): (t: Transition)
    ensures t.next == s.(messageIndex := 0)
  {
    var i := s.messageIndex;
    Transition(
      s.(messageIndex := 0),
      Round(Lookup(msgs, i)) + Round(Lookup(msgs, i + 1)) + Round(Lookup(msgs, i + 2)))
  }

  lemma IntendedThree(a: seq<Action>, b: seq<Action>, c: seq<Action>)
    ensures Intended(a + b + c) == Intended(a) + Intended(b) + Intended(c)
  {
    IntendedAppend(a, b);
    IntendedAppend(a + b, c);
  }

  lemma RoundsIntended(m0: string, m1: string, m2: string)
    ensures Intended(Round(m0) + Round(m1) + Round(m2)) == ClearThen(m0) + ClearThen(m1) + ClearThen(m2)
  {
    RoundIntended(m0);
    RoundIntended(m1);
    RoundIntended(m2);
    IntendedThree(Round(m0), Round(m1), Round(m2));
  }

  lemma MainPassIntended(s: State, msgs: seq<string>)
    ensures Intended(MainPass(s, msgs).acts) == PassUnits(msgs, s.messageIndex)
  {
    var i := s.messageIndex;
    RoundsIntended(Lookup(msgs, i), Lookup(msgs, i + 1), Lookup(msgs, i + 2));
  }

  /** One `main` pass clears and shows messages i, i + 1 and i + 2 in order,
      and leaves the index at 0. */
  lemma MainPassSent(l: Lines, s: State, msgs: seq<string>)
    requires Idle(l)
    ensures Sent(l, Transmit(MainPass(s, msgs).acts)) == PassUnits(msgs, s.messageIndex)
    ensures MainPass(s, msgs).next.messageIndex == 0
  {
    TransmitSent(l, MainPass(s, msgs).acts);
    MainPassIntended(s, msgs);
  }

  /** `count` runs of `main()` from state s, each started by the interval
      timer after the previous one finished. */
  function Passes(s: State, msgs: seq<string>, count: nat): (t: Transition)
    decreases count
    ensures t.next.flags == s.flags
    ensures t.next.messageIndex == if count == 0 then s.messageIndex else 0
  {
    if count == 0 then Transition(s, [])
    else
      var pass := MainPass(s, msgs);
      var rest := Passes(pass.next, msgs, count - 1);
      Transition(rest.next, pass.acts + rest.acts)
  }

  /** The whole script: `init()` and then `passes` runs of `main()`. */
  function Program(msgs: seq<string>, unsetFlags: Flags, passes: nat): (t: Transition)
    ensures t.next.messageIndex == 0
    ensures t.next.flags == Flags(0x04, 0x02, 0x08)
  {
    var init := Init(Boot(unsetFlags));
    var rest := Passes(init.next, msgs, passes);
    Transition(rest.next, init.acts + rest.acts)
  }

  /** `count` copies of u, one after another. */
  function Repeated(u: seq<Unit>, count: nat): (r: seq<Unit>)
    ensures |r| == count * |u|
  {
    if count == 0 then [] else u + Repeated(u, count - 1)
  }

  /** Passes started at index 0 all show messages 0, 1 and 2. */
  lemma {:induction false} PassesIntended(s: State, msgs: seq<string>, count: nat)
    requires s.messageIndex == 0
    ensures Intended(Passes(s, msgs, count).acts) == Repeated(PassUnits(msgs, 0), count)
  {
    if count > 0 {
      var pass := MainPass(s, msgs);
      PassesIntended(pass.next, msgs, count - 1);
      MainPassIntended(s, msgs);
      IntendedAppend(pass.acts, Passes(pass.next, msgs, count - 1).acts);
    }
  }

  lemma ProgramIntended(msgs: seq<string>, unsetFlags: Flags, passes: nat)
    ensures Intended(Program(msgs, unsetFlags, passes).acts)
            == InitCommands + Repeated(PassUnits(msgs, 0), passes)
  {
    var init := Init(Boot(unsetFlags));
    InitIntended(Boot(unsetFlags));
    PassesIntended(init.next, msgs, passes);
    IntendedAppend(init.acts, Passes(init.next, msgs, passes).acts);
  }

  /** Every pass of the running script starts at index 0, so the display
      cycles through messages 0, 1 and 2, each after a clear, forever. */
  lemma ProgramSent(l: Lines, msgs: seq<string>, unsetFlags: Flags, passes: nat)
    requires Idle(l)
    ensures Sent(l, Transmit(Program(msgs, unsetFlags, passes).acts))
            == InitCommands + Repeated(PassUnits(msgs, 0), passes)
  {
    TransmitSent(l, Program(msgs, unsetFlags, passes).acts);
    ProgramIntended(msgs, unsetFlags, passes);
  }
}
