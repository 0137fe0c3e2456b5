/**
 The LCD driver script `nodejs/rpi-lcd-full.js`: its `write4bits`, the
 display toggles, `setCursor`, `begin`, the top-level start-up sequence and
 the `main` callback that cycles through the messages.

 None of this script's `write4bits` calls is awaited. The model plays each
 call to completion before the next one; what does not depend on that order
 is stated separately (`AnyOrderLatchesZeros`).
 */
module LcdFull {
  import opened Bits
  import opened Bus
  import opened Hd44780
  import opened Driver
  import LcdSimple

  // ---------------------------------------------------------------------
  // write4bits
  // ---------------------------------------------------------------------

  /** What `write4bits` does after its 1000 ms wait, for the four-character
      string `bitBinary`: drive RS, then run two nibble blocks. Both loops
      drive a data line to level 0 where they find a '1', and the second
      loop reads indices 4 to 7 of the four-character string, which are
      `undefined`. */
  function Strobes(bitBinary: string, charMode: bool): seq<Event>
  {
    [SetRS(charMode)] + NibbleBlock(bitBinary, 0, 4, 3, false) + NibbleBlock(bitBinary, 4, 8, 7, false)
  }

  /** Whatever the digit string, no write of the strobes drives a data line
      high, and RS is only ever driven to `char_mode`. */
  lemma StrobesWrites(bitBinary: string, charMode: bool)
    ensures forall e <- Strobes(bitBinary, charMode) :: (e.SetData? ==> !e.high) && (e.SetRS? ==> e == SetRS(charMode))
  {
    NibbleBlockWrites(bitBinary, 0, 4, 3, false);
    NibbleBlockWrites(bitBinary, 4, 8, 7, false);
  }

  /** `write4bits(bits, char_mode)`: for a magnitude below 256, wait 1000 ms
      and keep only the first four digits of the eight-digit numeral. */
  function Write4Bits(bits: int, charMode: bool): (t: seq<Event>)
    ensures t == [] <==> Abs(bits) >= 256
  {
    var bit := Abs(bits);
    if bit < 256 then [Delay(1000)] + Strobes(PadStart(ToBinary(bit), 8, '0')[..4], charMode)
    else []
  }

  /** Whatever the value, no write of `write4bits` drives a data line high. */
  lemma Write4BitsDataLow(bits: int, charMode: bool)
    ensures forall e <- Write4Bits(bits, charMode) :: e.SetData? ==> !e.high
  {
    var bit := Abs(bits);
    if bit < 256 {
      StrobesWrites(PadStart(ToBinary(bit), 8, '0')[..4], charMode);
    }
  }

  /** Marking with level 0 on lines that are all low leaves them all low. */
  lemma MarkedLowStaysLow(s: string, i: nat, stop: nat, base: int)
    ensures Marked(s, i, stop, base, false, AllLow) == AllLow
  {
    var m := Marked(s, i, stop, base, false, AllLow);
    forall k | 0 <= k < 4
      ensures m[k] == AllLow[k]
    {
      MarkedAt(s, i, stop, base, false, AllLow, k);
    }
  }

  /** Whatever the string, the strobes latch two frames with every data line low. */
  lemma StrobesFrames(l: Lines, bitBinary: string, charMode: bool)
    requires Idle(l)
    ensures Frames(l, Strobes(bitBinary, charMode)) == [Frame(charMode, AllLow), Frame(charMode, AllLow)]
    ensures Idle(Run(l, Strobes(bitBinary, charMode)))
  {
    RsThenTwoBlocks(l, charMode, bitBinary, 0, 4, 3, bitBinary, 4, 8, 7, false);
    MarkedLowStaysLow(bitBinary, 0, 4, 3);
    MarkedLowStaysLow(bitBinary, 4, 8, 7);
  }

  /** For a magnitude below 256 the controller latches two frames with RS at
      `char_mode` and every data line low, whatever the value; otherwise
      nothing is transmitted. */
  lemma Write4BitsFrames(l: Lines, bits: int, charMode: bool)
    requires Idle(l)
    ensures Frames(l, Write4Bits(bits, charMode))
            == if Abs(bits) < 256 then [Frame(charMode, AllLow), Frame(charMode, AllLow)] else []
    ensures |Frames(l, Write4Bits(bits, charMode))| % 2 == 0
    ensures Idle(Run(l, Write4Bits(bits, charMode)))
  {
    var n := Abs(bits);
    if n < 256 {
      DelayFirst(l, 1000, Strobes(PadStart(ToBinary(n), 8, '0')[..4], charMode));
      StrobesFrames(l, PadStart(ToBinary(n), 8, '0')[..4], charMode);
    }
  }

  /** The bytes meant, with every value replaced by 0. */
  function Blank(units: seq<Unit>): (r: seq<Unit>)
    ensures |r| == |units|
    ensures forall k :: 0 <= k < |r| ==> r[k].charMode == units[k].charMode && r[k].value == 0
    decreases |units|
  {
    if |units| == 0 then [] else [Unit(units[0].charMode, 0)] + Blank(units[1..])
  }

  lemma BlankAppend(a: seq<Unit>, b: seq<Unit>)
    ensures Blank(a + b) == Blank(a) + Blank(b)
  {
  }

  lemma ZeroNibbleLines()
    ensures NibbleLines(0) == AllLow
  {
    ZeroBits(1);
    ZeroBits(2);
    ZeroBits(3);
  }

  /** One call delivers the byte it was meant to deliver, as 0. */
  lemma Write4BitsSent(l: Lines, bits: int, charMode: bool)
    requires Idle(l)
    ensures Sent(l, Write4Bits(bits, charMode)) == Blank(Delivers(Write(bits, charMode)))
  {
    Write4BitsFrames(l, bits, charMode);
    if Abs(bits) < 256 {
      ZeroNibbleLines();
      assert ByteFrames(charMode, 0) == [Frame(charMode, AllLow), Frame(charMode, AllLow)];
      ByteFramesRoundTrip(charMode, 0);
    }
  }

  /** One call, played to completion: a `write4bits` or a wait. */
  function Call(a: Action): seq<Event>
  {
    match a
    case Write(bits, charMode) => Write4Bits(bits, charMode)
    case Wait(ms) => [Delay(ms)]
  }

  /** One call delivers the bytes it is meant to, as 0, and leaves the strobe low. */
  lemma CallSent(l: Lines, a: Action)
    requires Idle(l)
    ensures Sent(l, Call(a)) == Blank(Delivers(a))
    ensures |Frames(l, Call(a))| % 2 == 0
    ensures Idle(Run(l, Call(a)))
  {
    match a {
      case Write(bits, charMode) =>
        assert Call(a) == Write4Bits(bits, charMode);
        Write4BitsFrames(l, bits, charMode);
        Write4BitsSent(l, bits, charMode);
      case Wait(ms) =>
        SingleStep(l, Delay(ms));
    }
  }

  /** A run of calls, each played to completion before the next. */
  function Transmit(acts: seq<Action>): seq<Event>
    decreases |acts|
  {
    if |acts| == 0 then [] else Call(acts[0]) + Transmit(acts[1..])
  }

  /** The controller receives one byte per call that was meant to deliver
      one, in the register meant, but every byte is 0. */
  lemma {:induction false} TransmitSent(l: Lines, acts: seq<Action>)
    requires Idle(l)
    ensures Sent(l, Transmit(acts)) == Blank(Intended(acts))
    ensures Idle(Run(l, Transmit(acts)))
    decreases |acts|
  {
    if |acts| > 0 {
      var head := Call(acts[0]);
      var rest := Transmit(acts[1..]);
      RunAppend(l, head, rest);
      CallSent(l, acts[0]);
      TransmitSent(Run(l, head), acts[1..]);
      DecodeAppend(Frames(l, head), Frames(Run(l, head), rest));
      BlankAppend(Delivers(acts[0]), Intended(acts[1..]));
    }
  }

  /** No pin write of any run of calls drives a data line high. */
  lemma {:induction false} TransmitDataLow(acts: seq<Action>)
    ensures forall e <- Transmit(acts) :: e.SetData? ==> !e.high
    decreases |acts|
  {
    if |acts| > 0 {
      match acts[0] {
        case Write(bits, charMode) => Write4BitsDataLow(bits, charMode);
        case Wait(ms) =>
      }
      TransmitDataLow(acts[1..]);
    }
  }

  /** Whatever the script sends, the controller's configuration registers
      keep the values they had: it only ever receives zero bytes. */
  lemma TransmitConfiguresNothing(l: Lines, acts: seq<Action>, r: Registers)
    requires Idle(l)
    ensures ExecuteAll(r, Sent(l, Transmit(acts))) == r
  {
    TransmitSent(l, acts);
    ZeroBytesChangeNothing(r, Blank(Intended(acts)));
  }

  // ---------------------------------------------------------------------
  // Independence from the order of the unawaited calls.
  // ---------------------------------------------------------------------

  /** No event of the trace drives a data line high. */
  predicate NoDataHigh(t: seq<Event>)
  {
    forall k :: 0 <= k < |t| ==> !(t[k].SetData? && t[k].high)
  }

  /** From all-low data lines, a trace that never drives a line high latches
      only frames with every data line low. */
  lemma {:induction false} LowStaysLow(l: Lines, t: seq<Event>)
    requires l.data == AllLow && NoDataHigh(t)
    ensures Run(l, t).data == AllLow
    ensures forall k :: 0 <= k < |Frames(l, t)| ==> Frames(l, t)[k].data == AllLow
    decreases |t|
  {
    if |t| > 0 {
      var next := Step(l, t[0]);
      if t[0].SetData? {
        ClearedLineStaysLow(t[0].pin);
      }
      assert NoDataHigh(t[1..]) by {
        forall k | 0 <= k < |t[1..]|
          ensures !(t[1..][k].SetData? && t[1..][k].high)
        {
          assert t[1..][k] == t[k + 1];
        }
      }
      LowStaysLow(next, t[1..]);
    }
  }

  lemma ClearedLineStaysLow(p: Pin)
    ensures AllLow[p := false] == AllLow
  {
  }

  /** However the events of the calls interleave, every frame the controller
      latches carries 0 on all four data lines, once the lines start low. */
  lemma AnyOrderLatchesZeros(l: Lines, acts: seq<Action>, t: seq<Event>)
    requires l.data == AllLow
    requires multiset(t) == multiset(Transmit(acts))
    ensures forall k :: 0 <= k < |Frames(l, t)| ==> Frames(l, t)[k].data == AllLow
  {
    var all := Transmit(acts);
    TransmitDataLow(acts);
    forall k | 0 <= k < |t|
      ensures !(t[k].SetData? && t[k].high)
    {
      assert t[k] in multiset(all);
      var j :| 0 <= j < |all| && all[j] == t[k];
      assert all[j] in all;
    }
    LowStaysLow(l, t);
  }

  // ---------------------------------------------------------------------
  // Flag toggles.
  // ---------------------------------------------------------------------

  /** The two flag bytes the toggles edit. */
  datatype FlagByte = EntryModeByte | DisplayControlByte

  function Get(f: Flags, b: FlagByte): bv8
  {
    match b
    case EntryModeByte => f.mode
    case DisplayControlByte => f.control
  }

  function Put(f: Flags, b: FlagByte, v: bv8): (g: Flags)
    ensures Get(g, b) == v
  {
    match b
    case EntryModeByte => f.(mode := v)
    case DisplayControlByte => f.(control := v)
  }

  /** The instruction whose operand a flag byte is. */
  function Opcode(b: FlagByte): bv8
  {
    match b
    case EntryModeByte => ENTRY_MODE_SET
    case DisplayControlByte => DISPLAY_CONTROL
  }

  /** The bits under the mask are all set (or all clear) in `after`, and
      every other bit is as in `before`. */
  predicate BitsToggled(before: bv8, after: bv8, mask: bv8, on: bool)
  {
    && after & mask == (if on then mask else 0)
    && after & !mask == before & !mask
  }

  /** What a toggle promises: the masked bits of the chosen flag byte are set
      (or cleared), its other bits and all other state are unchanged, and one
      command carrying the new flag byte is sent. */
  predicate Toggled(s: State, t: Transition, b: FlagByte, mask: bv8, on: bool)
  {
    var after := Get(t.next.flags, b);
    && BitsToggled(Get(s.flags, b), after, mask, on)
    && t.next == s.(flags := Put(s.flags, b, after))
    && t.acts == [Command(Opcode(b) | after)]
  }

  lemma SetBits(x: bv8, mask: bv8)
    ensures BitsToggled(x, x | mask, mask, true)
  {
  }

  lemma ClearBits(x: bv8, mask: bv8)
    ensures BitsToggled(x, x & !mask, mask, false)
  {
  }

  /** `flags |= mask; write4bits(opcode | flags)` */
  function SetFlag(s: State, b: FlagByte, mask: bv8): (t: Transition)
    ensures Toggled(s, t, b, mask, true)
  {
    SetBits(Get(s.flags, b), mask);
    var v := Get(s.flags, b) | mask;
    Transition(s.(flags := Put(s.flags, b, v)), [Command(Opcode(b) | v)])
  }

  /** `flags &= ~mask; write4bits(opcode | flags)`. The flag bytes only ever
      hold values below 256, where JavaScript's 32-bit `& ~mask` and the
      8-bit one agree. */
  function ClearFlag(s: State, b: FlagByte, mask: bv8): (t: Transition)
    ensures Toggled(s, t, b, mask, false)
  {
    ClearBits(Get(s.flags, b), mask);
    var v := Get(s.flags, b) & !mask;
    Transition(s.(flags := Put(s.flags, b, v)), [Command(Opcode(b) | v)])
  }

  function NoAutoscroll(s: State): (t: Transition)
    ensures Toggled(s, t, EntryModeByte, ENTRY_SHIFT_INCREMENT, false)
  {
    ClearFlag(s, EntryModeByte, ENTRY_SHIFT_INCREMENT)
  }

  function Autoscroll(s: State): (t: Transition)
    ensures Toggled(s, t, EntryModeByte, ENTRY_SHIFT_INCREMENT, true)
  {
    SetFlag(s, EntryModeByte, ENTRY_SHIFT_INCREMENT)
  }

  function RightToLeft(s: State): (t: Transition)
    ensures Toggled(s, t, EntryModeByte, ENTRY_LEFT, false)
  {
    ClearFlag(s, EntryModeByte, ENTRY_LEFT)
  }

  function LeftToRight(s: State): (t: Transition)
    ensures Toggled(s, t, EntryModeByte, ENTRY_LEFT, true)
  {
    SetFlag(s, EntryModeByte, ENTRY_LEFT)
  }

  function NoBlink(s: State): (t: Transition)
    ensures Toggled(s, t, DisplayControlByte, BLINK_ON, false)
  {
    ClearFlag(s, DisplayControlByte, BLINK_ON)
  }

  function Cursor(s: State): (t: Transition)
    ensures Toggled(s, t, DisplayControlByte, CURSOR_ON, true)
  {
    SetFlag(s, DisplayControlByte, CURSOR_ON)
  }

  function NoCursor(s: State): (t: Transition)
    ensures Toggled(s, t, DisplayControlByte, CURSOR_ON, false)
  {
    ClearFlag(s, DisplayControlByte, CURSOR_ON)
  }

  function Display(s: State): (t: Transition)
    ensures Toggled(s, t, DisplayControlByte, DISPLAY_ON, true)
  {
    SetFlag(s, DisplayControlByte, DISPLAY_ON)
  }

  function NoDisplay(s: State): (t: Transition)
    ensures Toggled(s, t, DisplayControlByte, DISPLAY_ON, false)
  {
    ClearFlag(s, DisplayControlByte, DISPLAY_ON)
  }

  /** `cursor()` then `noCursor()` gives back the starting state exactly
      when the cursor bit was off to begin with. */
  lemma CursorUndone(s: State)
    ensures NoCursor(Cursor(s).next).next == s <==> s.flags.control & CURSOR_ON == 0
  {
    var back := NoCursor(Cursor(s).next).next;
    if s.flags.control & CURSOR_ON != 0 {
      assert back.flags.control & CURSOR_ON == 0;
    }
  }

  /** A byte is fixed by its bits under a mask and its bits outside it. */
  lemma SplitByMask(x: bv8, y: bv8, mask: bv8, on: bool)
    requires BitsToggled(y, x, mask, on)
    requires y & mask == (if on then mask else 0)
    ensures x == y
  {
  }

  lemma PutGet(f: Flags, b: FlagByte)
    ensures Put(f, b, Get(f, b)) == f
  {
  }

  /** Doing a toggle a second time changes nothing and sends the same
      command again: every toggle is idempotent. */
  lemma ToggleIdempotent(s: State, t1: Transition, t2: Transition, b: FlagByte, mask: bv8, on: bool)
    requires Toggled(s, t1, b, mask, on) && Toggled(t1.next, t2, b, mask, on)
    ensures t2 == t1
  {
    var a1 := Get(t1.next.flags, b);
    var a2 := Get(t2.next.flags, b);
    assert BitsToggled(Get(s.flags, b), a1, mask, on);
    assert BitsToggled(a1, a2, mask, on);
    SplitByMask(a2, a1, mask, on);
    PutGet(t1.next.flags, b);
    assert t2.next == t1.next;
    assert t2.acts == t1.acts;
  }

  /** `noCursor()` twice is `noCursor()` once. */
  lemma NoCursorTwice(s: State)
    ensures NoCursor(NoCursor(s).next) == NoCursor(s)
  {
    ToggleIdempotent(s, NoCursor(s), NoCursor(NoCursor(s).next), DisplayControlByte, CURSOR_ON, false);
  }

  /** The mask lies inside the field of its instruction's operand. */
  predicate MaskFits(b: FlagByte, mask: bv8)
  {
    match b
    case EntryModeByte => mask < 4
    case DisplayControlByte => mask < 8
  }

  /** Had the command reached the controller as meant, the flag bytes and the
      controller's registers would still agree after any toggle. */
  lemma ToggleAgreesAsMeant(s: State, t: Transition, b: FlagByte, mask: bv8, on: bool, r: Registers)
    requires Agrees(s.flags, r) && MaskFits(b, mask) && Toggled(s, t, b, mask, on)
    ensures Agrees(t.next.flags, ExecuteAll(r, Intended(t.acts)))
  {
    var after := Get(t.next.flags, b);
    CommandDelivers(Opcode(b) | after);
    assert [Unit(false, (Opcode(b) | after) as int)][1..] == [];
    match b {
      case EntryModeByte =>
        assert after < 4;
        EntryModeCommand(r, after);
      case DisplayControlByte =>
        assert after < 8;
        DisplayControlCommand(r, after);
    }
  }

  /** What actually reaches the controller is a zero byte, so a toggle that
      changes its flag byte leaves the driver's flags and the controller's
      registers disagreeing. */
  lemma ToggleDisagreesAsSent(l: Lines, s: State, t: Transition, b: FlagByte, mask: bv8, on: bool, r: Registers)
    requires Idle(l) && Agrees(s.flags, r) && Toggled(s, t, b, mask, on)
    requires Get(t.next.flags, b) != Get(s.flags, b)
    ensures !Agrees(t.next.flags, ExecuteAll(r, Sent(l, Transmit(t.acts))))
  {
    TransmitConfiguresNothing(l, t.acts, r);
    match b {
      case EntryModeByte =>
      case DisplayControlByte =>
    }
  }

  // ---------------------------------------------------------------------
  // Commands without state.
  // ---------------------------------------------------------------------

  /** `scrollDisplayRight()`: shift the whole display right. */
  function ScrollDisplayRight(s: State): (t: Transition)
    ensures t.next == s
    ensures Intended(t.acts) == [Unit(false, 0x1C)]
  {
    var cmd := CURSOR_SHIFT | DISPLAY_MOVE | MOVE_RIGHT;
    CommandDelivers(cmd);
    Transition(s, [Command(cmd)])
  }

  /** `scrollDisplayLeft()`: shift the whole display left. */
  function ScrollDisplayLeft(s: State): (t: Transition)
    ensures t.next == s
    ensures Intended(t.acts) == [Unit(false, 0x18)]
  {
    var cmd := CURSOR_SHIFT | DISPLAY_MOVE | MOVE_LEFT;
    CommandDelivers(cmd);
    Transition(s, [Command(cmd)])
  }

  /** `clear()`: the clear command; the 3000 ms delay after it is not
      awaited, so nothing waits for it. */
  function Clear(s: State): (t: Transition)
    ensures t.next == s
    ensures Intended(t.acts) == [Unit(false, 0x01)]
    ensures forall a <- t.acts :: a.Write?
  {
    CommandDelivers(CLEAR_DISPLAY);
    Transition(s, [Command(CLEAR_DISPLAY)])
  }

  /** `home()`: the return-home command, its delay likewise not awaited. */
  function Home(s: State): (t: Transition)
    ensures t.next == s
    ensures Intended(t.acts) == [Unit(false, 0x02)]
    ensures forall a <- t.acts :: a.Write?
  {
    CommandDelivers(RETURN_HOME);
    Transition(s, [Command(RETURN_HOME)])
  }

  // ---------------------------------------------------------------------
  // setCursor
  // ---------------------------------------------------------------------

  datatype Option<T> = None | Some(value: T)

  /** `rowOffsets[row]`; any other index reads `undefined`. */
  function RowOffset(row: int): (o: Option<int>)
    ensures o.Some? <==> 0 <= row < 4
  {
    if row == 0 then Some(0x00)
    else if row == 1 then Some(0x40)
    else if row == 2 then Some(0x14)
    else if row == 3 then Some(0x54)
    else None
  }

  /** The row `setCursor` looks up: one past the line count is let through,
      only a larger row is replaced by the last line. */
  function TargetRow(row: int, numlines: int): (r: int)
    ensures row <= numlines ==> r == row
    ensures row > numlines ==> r == numlines - 1
  {
    if row > numlines then numlines - 1 else row
  }

  /** JavaScript's ToInt32: the integer congruent to x modulo 2^32 in the
      signed 32-bit range. */
  function ToInt32(x: int): (y: int)
    ensures -0x8000_0000 <= y < 0x8000_0000
    ensures (x - y) % 0x1_0000_0000 == 0
  {
    (x + 0x8000_0000) % 0x1_0000_0000 - 0x8000_0000
  }

  /** `0x80 | y` for a signed 32-bit y: in two's complement, bit 7 is set and
      every other bit is kept. Euclidean `%` and `/` by 256 read the low
      byte and the bits above it of a negative number correctly. */
  function OrBit7(y: int): (r: int)
    ensures r % 256 >= 128
    ensures r % 128 == y % 128 && r / 256 == y / 256
  {
    if y % 256 < 128 then y + 128 else y
  }

  /** The argument `setCursor` passes: `LCD_SETDDRAMADDR | address`, where an
      `undefined` offset makes the address NaN, which `|` reads as 0. */
  function DdramCommand(address: Option<int>): (cmd: int)
    ensures cmd % 256 >= 128
    ensures address.None? ==> cmd == 0x80
    ensures address.Some? && 0 <= address.value < 128 ==> cmd == 0x80 + address.value
  {
    OrBit7(if address.Some? then ToInt32(address.value) else 0)
  }

  /** `setCursor(col, row)`: one write of `LCD_SETDDRAMADDR | (col + rowOffsets[row])`. */
  function SetCursor(s: State, col: int, row: int): (t: Transition)
    ensures t.next == s
    ensures |t.acts| == 1 && t.acts[0].Write? && !t.acts[0].charMode
  {
    var offset := RowOffset(TargetRow(row, s.numlines));
    var address := if offset.Some? then Some(col + offset.value) else None;
    Transition(s, [Write(DdramCommand(address), false)])
  }

  /** For a row in the table and an address that fits, the controller is
      meant to receive the set-DDRAM-address instruction for
      `col + rowOffsets[row]`. */
  lemma SetCursorAddress(s: State, col: int, row: int)
    requires RowOffset(TargetRow(row, s.numlines)).Some?
    requires 0 <= col + RowOffset(TargetRow(row, s.numlines)).value < 128
    ensures Intended(SetCursor(s, col, row).acts)
            == [Unit(false, 0x80 + col + RowOffset(TargetRow(row, s.numlines)).value)]
    ensures DecodeInstruction(0x80 + col + RowOffset(TargetRow(row, s.numlines)).value)
            == SetDdramAddress(col + RowOffset(TargetRow(row, s.numlines)).value)
  {
    var address := col + RowOffset(TargetRow(row, s.numlines)).value;
    assert SetCursor(s, col, row).acts[1..] == [];
  }

  /** On the two-line display, column 5 of an out-of-range row 99 lands on
      the second line: address 0x45, byte 0xC5. */
  lemma SetCursorClampsHighRow(s: State)
    requires s.numlines == 2
    ensures Intended(SetCursor(s, 5, 99).acts) == [Unit(false, 0xC5)]
  {
    SetCursorAddress(s, 5, 99);
  }

  /** A row equal to the line count is not replaced: on the two-line display
      row 2 addresses 0x14, which on a 16-column display is a cell of the
      first line that is not shown. */
  lemma SetCursorRowEqualToLines(s: State)
    requires s.numlines == 2
    ensures Intended(SetCursor(s, 0, 2).acts) == [Unit(false, 0x94)]
  {
    SetCursorAddress(s, 0, 2);
  }

  /** A row outside the offset table makes the sum NaN, and the command
      becomes the bare set-DDRAM-address instruction: address 0. */
  lemma SetCursorUndefinedRow(s: State, col: int, row: int)
    requires RowOffset(TargetRow(row, s.numlines)).None?
    ensures Intended(SetCursor(s, col, row).acts) == [Unit(false, 0x80)]
  {
    assert SetCursor(s, col, row).acts[1..] == [];
  }

  /** Column -1 on row 0 ORs 0x80 into -1, which stays -1; its magnitude is
      1, so the display is cleared instead. */
  lemma SetCursorMinusOneClears(s: State)
    requires 0 <= s.numlines
    ensures Intended(SetCursor(s, -1, 0).acts) == [Unit(false, 0x01)]
    ensures DecodeInstruction(0x01) == ClearDisplay
  {
    assert DdramCommand(Some(-1)) == -1;
    assert SetCursor(s, -1, 0).acts[1..] == [];
  }

  /** The row clamp as evidently intended: rows are counted from 0, so
      every row from the line count upwards goes to the last line. */
  function FixedTargetRow(row: int, numlines: int): (r: int)
    ensures row < numlines ==> r == row
    ensures row >= numlines ==> r == numlines - 1
  {
    if row >= numlines then numlines - 1 else row
  }

  /** `setCursor` with the intended clamp. */
  function FixedSetCursor(s: State, col: int, row: int): (t: Transition)
    ensures t.next == s
    ensures |t.acts| == 1 && t.acts[0].Write? && !t.acts[0].charMode
  {
    var offset := RowOffset(FixedTargetRow(row, s.numlines));
    var address := if offset.Some? then Some(col + offset.value) else None;
    Transition(s, [Write(DdramCommand(address), false)])
  }

  /** With the intended clamp, any row from 0 up lands on a configured line,
      and the command addresses column `col` of that line. */
  lemma FixedSetCursorOnALine(s: State, col: int, row: int)
    requires 1 <= s.numlines <= 4 && 0 <= row
    requires 0 <= col < 0x14
    ensures 0 <= FixedTargetRow(row, s.numlines) < s.numlines
    ensures Intended(FixedSetCursor(s, col, row).acts)
            == [Unit(false, 0x80 + col + RowOffset(FixedTargetRow(row, s.numlines)).value)]
  {
    var offset := RowOffset(FixedTargetRow(row, s.numlines)).value;
    assert FixedSetCursor(s, col, row).acts[1..] == [];
  }

  /** On the two-line display, row 2 now goes to the second line. */
  lemma FixedSetCursorRowEqualToLines(s: State)
    requires s.numlines == 2
    ensures Intended(FixedSetCursor(s, 0, 2).acts) == [Unit(false, 0xC0)]
  {
    FixedSetCursorOnALine(s, 0, 2);
  }

  // ---------------------------------------------------------------------
  // begin, main and the script as a whole.
  // ---------------------------------------------------------------------

  /** `begin(cols, lines)`: for more than one line, record the line count,
      set the two-line bit and reset the current line. No command is sent. */
  function Begin(s: State, cols: int, lines: int): (t: Transition)
    ensures t.acts == []
    ensures lines <= 1 ==> t.next == s
    ensures lines > 1 ==> t.next.numlines == lines && t.next.currline == 0
                          && t.next.flags.config == s.flags.config | TWO_LINE
                          && t.next.flags.control == s.flags.control && t.next.flags.mode == s.flags.mode
                          && t.next.messageIndex == s.messageIndex
  {
    if lines > 1 then
      Transition(s.(numlines := lines, flags := s.flags.(config := s.flags.config | TWO_LINE), currline := 0), [])
    else Transition(s, [])
  }

  /** Because `begin` sends no function-set command, the flag bytes still
      match the controller afterwards exactly when the two-line bit was
      already set or the call changed nothing. */
  lemma BeginAgreement(s: State, cols: int, lines: int, r: Registers)
    requires Agrees(s.flags, r)
    ensures Agrees(Begin(s, cols, lines).next.flags, ExecuteAll(r, Intended(Begin(s, cols, lines).acts)))
            <==> lines <= 1 || s.flags.config & TWO_LINE != 0
  {
    var t := Begin(s, cols, lines);
    if lines > 1 && s.flags.config & TWO_LINE == 0 {
      assert t.next.flags.config != s.flags.config;
    }
  }

  /** `main()`: clear, show the current message, then advance the index,
      wrapping from 2 back to 0. */
  function Main(s: State, msgs: seq<string>): (t: Transition)
    ensures Intended(t.acts) == ClearThen(Lookup(msgs, s.messageIndex))
    ensures 0 <= s.messageIndex <= 2 ==> t.next.messageIndex == (s.messageIndex + 1) % 3
    ensures t.next == s.(messageIndex := t.next.messageIndex)
  {
    var clear := Clear(s).acts;
    var text := Message(Lookup(msgs, s.messageIndex));
    IntendedAppend(clear, text);
    MessageIntended(Lookup(msgs, s.messageIndex));
    Transition(
      s.(messageIndex := if s.messageIndex == 2 then 0 else s.messageIndex + 1),
      clear + text)
  }

  /** `count` runs of `main()` from state s. */
  function Runs(s: State, msgs: seq<string>, count: nat): (t: Transition)
    ensures t.next.flags == s.flags && t.next.numlines == s.numlines
    decreases count
  {
    if count == 0 then Transition(s, [])
    else
      var pass := Main(s, msgs);
      var rest := Runs(pass.next, msgs, count - 1);
      Transition(rest.next, pass.acts + rest.acts)
  }

  /** The messages `count` runs are meant to show, starting at index i:
      each after a clear, the index advancing modulo 3. */
  function Shown(msgs: seq<string>, i: int, count: nat): seq<Unit>
    decreases count
  {
    if count == 0 then [] else ClearThen(Lookup(msgs, i)) + Shown(msgs, (i + 1) % 3, count - 1)
  }

  lemma CycleStep(i: int, count: nat, j: int, k: int)
    requires 0 <= i <= 2 && count > 0
    requires j == (i + 1) % 3 && k == (j + (count - 1)) % 3
    ensures k == (i + count) % 3
  {
  }

  /** From an index in 0..2, runs cycle through messages i, i + 1, ...
      modulo 3. */
  lemma {:induction false} RunsCycle(s: State, msgs: seq<string>, count: nat)
    requires 0 <= s.messageIndex <= 2
    ensures Intended(Runs(s, msgs, count).acts) == Shown(msgs, s.messageIndex, count)
    decreases count
  {
    if count > 0 {
      var pass := Main(s, msgs);
      var rest := Runs(pass.next, msgs, count - 1);
      RunsCycle(pass.next, msgs, count - 1);
      assert Runs(s, msgs, count).acts == pass.acts + rest.acts;
      assert Shown(msgs, s.messageIndex, count)
          == ClearThen(Lookup(msgs, s.messageIndex)) + Shown(msgs, pass.next.messageIndex, count - 1);
      IntendedAppend(pass.acts, rest.acts);
      assert Intended(pass.acts + rest.acts)
          == ClearThen(Lookup(msgs, s.messageIndex)) + Shown(msgs, pass.next.messageIndex, count - 1);
    }
  }

  /** After `count` runs from an index in 0..2 the index is `(i + count) % 3`. */
  lemma {:induction false} RunsIndex(s: State, msgs: seq<string>, count: nat)
    requires 0 <= s.messageIndex <= 2
    ensures Runs(s, msgs, count).next.messageIndex == (s.messageIndex + count) % 3
    decreases count
  {
    if count > 0 {
      var next := Main(s, msgs).next;
      RunsIndex(next, msgs, count - 1);
      CycleStep(s.messageIndex, count, next.messageIndex, Runs(next, msgs, count - 1).next.messageIndex);
    }
  }

  /** The top level of the script: the five set-up commands, the globals,
      the entry-mode command and `clear()`. */
  function Start(): (t: Transition)
    ensures FlagsFit(t.next.flags)
    ensures t.next.messageIndex == 0 && t.next.numlines == 2 && t.next.currline == 0
  {
    var displayControl := DISPLAY_ON | CURSOR_OFF | BLINK_OFF;
    var displayFunction := (FOUR_BIT_MODE | ONE_LINE | DOTS_5X8) | TWO_LINE;
    var displayMode := ENTRY_LEFT | ENTRY_SHIFT_DECREMENT;
    var s := State(Flags(displayControl, displayMode, displayFunction), 2, 0, 0);
    Transition(s,
      [Command(0x33), Command(0x32), Command(0x28), Command(0x0C), Command(0x06),
       Command(ENTRY_MODE_SET | displayMode)]
      + Clear(s).acts)
  }

  /** The bytes the start-up sequence is meant to send: the same seven as
      `init()` of the awaited script. */
  const StartCommands: seq<Unit> := LcdSimple.InitCommands

  /** The calls the start-up sequence makes, with the entry-mode byte worked out. */
  lemma StartActs()
    ensures Start().acts
            == [Command(0x33), Command(0x32), Command(0x28), Command(0x0C), Command(0x06), Command(0x06)]
               + [Command(CLEAR_DISPLAY)]
  {
    assert ENTRY_MODE_SET | (ENTRY_LEFT | ENTRY_SHIFT_DECREMENT) == 0x06;
  }

  lemma StartIntended()
    ensures Intended(Start().acts) == StartCommands
    ensures Start().next.flags == Flags(0x04, 0x02, 0x08)
  {
    var cmds := [Command(0x33), Command(0x32), Command(0x28), Command(0x0C), Command(0x06),
                 Command(0x06)];
    StartActs();
    IntendedAppend(cmds, [Command(CLEAR_DISPLAY)]);
    CommandsIntended(cmds);
    CommandDelivers(CLEAR_DISPLAY);
    assert Intended(cmds) == StartCommands[..6];
  }

  /** The whole script: start-up, then `passes` runs of `main()`. */
  function Program(msgs: seq<string>, passes: nat): (t: Transition)
    ensures t.next.flags == Start().next.flags
    ensures t.next.messageIndex == passes % 3
  {
    var start := Start();
    RunsIndex(start.next, msgs, passes);
    var rest := Runs(start.next, msgs, passes);
    Transition(rest.next, start.acts + rest.acts)
  }

  /** The script is meant to configure the controller and then show messages
      0, 1, 2, 0, ... each after a clear; what the controller receives is
      that many bytes, in the registers meant, all 0, so its configuration
      registers never change. */
  lemma ProgramSent(l: Lines, msgs: seq<string>, passes: nat, r: Registers)
    requires Idle(l)
    ensures Intended(Program(msgs, passes).acts) == StartCommands + Shown(msgs, 0, passes)
    ensures Sent(l, Transmit(Program(msgs, passes).acts)) == Blank(StartCommands + Shown(msgs, 0, passes))
    ensures ExecuteAll(r, Sent(l, Transmit(Program(msgs, passes).acts))) == r
  {
    var start := Start();
    StartIntended();
    RunsCycle(start.next, msgs, passes);
    IntendedAppend(start.acts, Runs(start.next, msgs, passes).acts);
    TransmitSent(l, Program(msgs, passes).acts);
    TransmitConfiguresNothing(l, Program(msgs, passes).acts, r);
  }

  // ---------------------------------------------------------------------
  // The byte that goes missing, and write4bits as evidently intended.
  // ---------------------------------------------------------------------

  /** As written, showing 'A' (0x41) puts a zero byte into the data register. */
  lemma Write4BitsLosesValue()
    ensures Sent(Lines(false, AllLow, false), Write4Bits(0x41, true)) == [Unit(true, 0)]
    ensures Delivers(Write(0x41, true)) == [Unit(true, 0x41)]
  {
    Write4BitsSent(Lines(false, AllLow, false), 0x41, true);
  }

  /** `write4bits` as evidently intended: after the same 1000 ms wait, the
      whole eight-digit numeral goes out, set digits driven to 1, the second
      loop putting digits 4 to 7 on pins 3 to 0. That is exactly the
      `write4bits` of `src/nodejs/lcd-simple/index.js`. */
  function FixedWrite4Bits(bits: int, charMode: bool): (t: seq<Event>)
    ensures t == [] <==> Abs(bits) >= 256
    ensures t != [] ==> |t| > 2 && t[0] == Delay(1000) && t[1] == SetRS(charMode)
  {
    if Abs(bits) < 256 then [Delay(1000)] + LcdSimple.Write4Bits(bits, charMode) else []
  }

  /** The intended `write4bits` delivers exactly the byte it is meant to. */
  lemma FixedWrite4BitsSent(l: Lines, bits: int, charMode: bool)
    requires Idle(l)
    ensures Sent(l, FixedWrite4Bits(bits, charMode)) == Delivers(Write(bits, charMode))
    ensures Idle(Run(l, FixedWrite4Bits(bits, charMode)))
  {
    if Abs(bits) < 256 {
      DelayFirst(l, 1000, LcdSimple.Write4Bits(bits, charMode));
      LcdSimple.Write4BitsFrames(l, bits, charMode);
      LcdSimple.Write4BitsSent(l, bits, charMode);
    }
  }

  lemma FixedWrite4BitsFrames(l: Lines, bits: int, charMode: bool)
    requires Idle(l)
    ensures |Frames(l, FixedWrite4Bits(bits, charMode))| % 2 == 0
  {
    if Abs(bits) < 256 {
      var t := LcdSimple.Write4Bits(bits, charMode);
      assert FixedWrite4Bits(bits, charMode) == [Delay(1000)] + t;
      DelayFirst(l, 1000, t);
      LcdSimple.Write4BitsFrames(l, bits, charMode);
      assert |Frames(l, FixedWrite4Bits(bits, charMode))| == 2;
    } else {
      assert Frames(l, FixedWrite4Bits(bits, charMode)) == [];
    }
  }

  /** One call with the intended `write4bits`. */
  function FixedCall(a: Action): seq<Event>
  {
    match a
    case Write(bits, charMode) => FixedWrite4Bits(bits, charMode)
    case Wait(ms) => [Delay(ms)]
  }

  /** With the intended `write4bits`, one call delivers exactly the bytes it
      is meant to, as whole bytes, and leaves the strobe low. */
  lemma FixedCallSent(l: Lines, a: Action)
    requires Idle(l)
    ensures Sent(l, FixedCall(a)) == Delivers(a)
    ensures |Frames(l, FixedCall(a))| % 2 == 0
    ensures Idle(Run(l, FixedCall(a)))
  {
    match a {
      case Write(bits, charMode) =>
        FixedWrite4BitsSent(l, bits, charMode);
        FixedWrite4BitsFrames(l, bits, charMode);
      case Wait(ms) =>
        SingleStep(l, Delay(ms));
    }
  }

  function FixedTransmit(acts: seq<Action>): seq<Event>
    decreases |acts|
  {
    if |acts| == 0 then [] else FixedCall(acts[0]) + FixedTransmit(acts[1..])
  }

  /** With the intended `write4bits`, the controller receives exactly the
      bytes the calls are meant to deliver. */
  lemma {:induction false} FixedTransmitSent(l: Lines, acts: seq<Action>)
    requires Idle(l)
    ensures Sent(l, FixedTransmit(acts)) == Intended(acts)
    ensures Idle(Run(l, FixedTransmit(acts)))
    decreases |acts|
  {
    if |acts| > 0 {
      var head := FixedCall(acts[0]);
      var rest := FixedTransmit(acts[1..]);
      RunAppend(l, head, rest);
      FixedCallSent(l, acts[0]);
      FixedTransmitSent(Run(l, head), acts[1..]);
      DecodeAppend(Frames(l, head), Frames(Run(l, head), rest));
    }
  }

  /** Text leaves the configuration registers alone: characters go to the
      data register and the newline byte 0xC0 sets the display address. */
  lemma {:induction false} TextKeepsRegisters(r: Registers, text: string)
    ensures ExecuteAll(r, TextUnits(text)) == r
    decreases |text|
  {
    if |text| > 0 {
      var head := if text[0] == '\n' then [Unit(false, NEWLINE as int)]
                  else if (text[0] as int) < 256 then [Unit(true, text[0] as int)]
                  else [];
      ExecuteAllAppend(r, head, TextUnits(text[1..]));
      assert ExecuteAll(r, head) == r by {
        if |head| == 1 {
          assert head[1..] == [];
        }
      }
      TextKeepsRegisters(r, text[1..]);
    }
  }

  /** Clearing and showing messages changes no configuration register, except
      that the first clear sets the entry mode's increment bit; from a state
      with that bit set, nothing changes at all. */
  lemma {:induction false} ShownKeepsRegisters(r: Registers, msgs: seq<string>, i: int, count: nat)
    ensures ExecuteAll(r, Shown(msgs, i, count)) == if count == 0 then r else Cleared(r)
    ensures r.entryMode % 4 >= 2 ==> ExecuteAll(r, Shown(msgs, i, count)) == r
    decreases count
  {
    if count > 0 {
      var text := Lookup(msgs, i);
      ExecuteAllAppend(r, ClearThen(text), Shown(msgs, (i + 1) % 3, count - 1));
      ExecuteAllAppend(r, [Unit(false, 0x01)], TextUnits(text));
      assert ExecuteAll(r, [Unit(false, 0x01)]) == Cleared(r) by {
        assert [Unit(false, 0x01)][1..] == [];
      }
      TextKeepsRegisters(Cleared(r), text);
      ShownKeepsRegisters(Cleared(r), msgs, (i + 1) % 3, count - 1);
    }
  }

  /** With the intended `write4bits`, the script delivers the start-up
      commands and the messages exactly, and afterwards the driver's flag
      bytes are what the controller's configuration registers hold. */
  lemma FixedProgramSent(l: Lines, msgs: seq<string>, passes: nat, r: Registers)
    requires Idle(l)
    ensures Sent(l, FixedTransmit(Program(msgs, passes).acts)) == StartCommands + Shown(msgs, 0, passes)
    ensures Agrees(Program(msgs, passes).next.flags, ExecuteAll(r, Sent(l, FixedTransmit(Program(msgs, passes).acts))))
  {
    var start := Start();
    StartIntended();
    RunsCycle(start.next, msgs, passes);
    IntendedAppend(start.acts, Runs(start.next, msgs, passes).acts);
    FixedTransmitSent(l, Program(msgs, passes).acts);
    LcdSimple.InitRegisters(r);
    ExecuteAllAppend(r, StartCommands, Shown(msgs, 0, passes));
    ShownKeepsRegisters(ExecuteAll(r, StartCommands), msgs, 0, passes);
  }
}
