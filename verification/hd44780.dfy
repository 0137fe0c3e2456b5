/**
 The HD44780 instruction set as the driver uses it: the command and flag
 constants (identical in both driver scripts), the instruction an instruction
 byte selects, and the three configuration registers those instructions write.

 An instruction byte is read by its highest set bit, following the
 instruction table of the Hitachi HD44780U datasheet; the bits below it are
 the instruction's operand, some of them "don't care".
 */
module Hd44780 {
  import opened Bus

  // Commands.
  const CLEAR_DISPLAY: bv8 := 0x01
  const RETURN_HOME: bv8 := 0x02
  const ENTRY_MODE_SET: bv8 := 0x04
  const DISPLAY_CONTROL: bv8 := 0x08
  const CURSOR_SHIFT: bv8 := 0x10
  const FUNCTION_SET: bv8 := 0x20
  const SET_CGRAM_ADDR: bv8 := 0x40
  const SET_DDRAM_ADDR: bv8 := 0x80

  // Entry mode flags.
  const ENTRY_RIGHT: bv8 := 0x00
  const ENTRY_LEFT: bv8 := 0x02
  const ENTRY_SHIFT_INCREMENT: bv8 := 0x01
  const ENTRY_SHIFT_DECREMENT: bv8 := 0x00

  // Display on/off control flags.
  const DISPLAY_ON: bv8 := 0x04
  const DISPLAY_OFF: bv8 := 0x00
  const CURSOR_ON: bv8 := 0x02
  const CURSOR_OFF: bv8 := 0x00
  const BLINK_ON: bv8 := 0x01
  const BLINK_OFF: bv8 := 0x00

  // Cursor/display shift flags.
  const DISPLAY_MOVE: bv8 := 0x08
  const CURSOR_MOVE: bv8 := 0x00
  const MOVE_RIGHT: bv8 := 0x04
  const MOVE_LEFT: bv8 := 0x00

  /** Set-DDRAM-address 0x40: the first cell of the second line. */
  const NEWLINE: bv8 := 0xC0

  // Function set flags.
  const EIGHT_BIT_MODE: bv8 := 0x10
  const FOUR_BIT_MODE: bv8 := 0x00
  const TWO_LINE: bv8 := 0x08
  const ONE_LINE: bv8 := 0x00
  const DOTS_5X10: bv8 := 0x04
  const DOTS_5X8: bv8 := 0x00

  datatype Instruction =
    | ClearDisplay
    | ReturnHome
    | EntryModeSet(mode: int)            // I/D, S
    | DisplayOnOff(control: int)         // D, C, B
    | CursorDisplayShift(shift: int)     // S/C, R/L
    | FunctionSet(config: int)           // DL, N, F
    | SetCgramAddress(address: int)
    | SetDdramAddress(address: int)
    | NoInstruction                      // the all-zero byte

  /** Operands that fit their instruction's field (don't-care bits zero). */
  predicate WellFormed(i: Instruction)
  {
    match i
    case EntryModeSet(m) => 0 <= m < 4
    case DisplayOnOff(c) => 0 <= c < 8
    case CursorDisplayShift(sh) => 0 <= sh < 16 && sh % 4 == 0
    case FunctionSet(f) => 0 <= f < 32 && f % 4 == 0
    case SetCgramAddress(a) => 0 <= a < 64
    case SetDdramAddress(a) => 0 <= a < 128
    case _ => true
  }

  /** The instruction a byte written with RS low selects. */
  function DecodeInstruction(b: Byte): (i: Instruction)
    ensures WellFormed(i)
    ensures i == NoInstruction <==> b == 0
  {
    if b >= 0x80 then SetDdramAddress(b - 0x80)
    else if b >= 0x40 then SetCgramAddress(b - 0x40)
    else if b >= 0x20 then FunctionSet((b - 0x20) / 4 * 4)
    else if b >= 0x10 then CursorDisplayShift((b - 0x10) / 4 * 4)
    else if b >= 0x08 then DisplayOnOff(b - 0x08)
    else if b >= 0x04 then EntryModeSet(b - 0x04)
    else if b >= 0x02 then ReturnHome
    else if b == 0x01 then ClearDisplay
    else NoInstruction
  }

  /** The canonical byte of an instruction: its command bit with the operand OR-ed in. */
  function EncodeInstruction(i: Instruction): Byte
    requires WellFormed(i)
  {
    match i
    case ClearDisplay => CLEAR_DISPLAY as int
    case ReturnHome => RETURN_HOME as int
    case EntryModeSet(m) => ENTRY_MODE_SET as int + m
    case DisplayOnOff(c) => DISPLAY_CONTROL as int + c
    case CursorDisplayShift(sh) => CURSOR_SHIFT as int + sh
    case FunctionSet(f) => FUNCTION_SET as int + f
    case SetCgramAddress(a) => SET_CGRAM_ADDR as int + a
    case SetDdramAddress(a) => SET_DDRAM_ADDR as int + a
    case NoInstruction => 0
  }

  /** Encoding then decoding gives the instruction back. */
  lemma DecodeEncode(i: Instruction)
    requires WellFormed(i)
    ensures DecodeInstruction(EncodeInstruction(i)) == i
  {
  }

  /** Decoding forgets only don't-care bits: re-encoding a decoded byte
      decodes to the same instruction. */
  lemma EncodeDecode(b: Byte)
    ensures DecodeInstruction(EncodeInstruction(DecodeInstruction(b))) == DecodeInstruction(b)
  {
    DecodeEncode(DecodeInstruction(b));
  }

  /** The instructions the scripts' fixed command bytes select. */
  lemma ConstantCommands()
    ensures DecodeInstruction(CLEAR_DISPLAY as int) == ClearDisplay
    ensures DecodeInstruction(RETURN_HOME as int) == ReturnHome
    ensures DecodeInstruction((CURSOR_SHIFT | DISPLAY_MOVE | MOVE_RIGHT) as int) == CursorDisplayShift((DISPLAY_MOVE | MOVE_RIGHT) as int)
    ensures DecodeInstruction((CURSOR_SHIFT | DISPLAY_MOVE | MOVE_LEFT) as int) == CursorDisplayShift((DISPLAY_MOVE | MOVE_LEFT) as int)
    ensures DecodeInstruction(NEWLINE as int) == SetDdramAddress(0x40)
  {
  }

  /** The controller's configuration registers, as last written. */
  datatype Registers = Registers(entryMode: int, displayControl: int, functionSet: int)

  /** Clear Display's effect on the configuration registers: besides
      blanking the display it sets the entry mode's increment bit (I/D,
      bit 1) and keeps the shift bit (S, bit 0). Everything else is kept, and
      a register file whose I/D bit is already set is left as it is. */
  function Cleared(r: Registers): (c: Registers)
    ensures c.entryMode % 4 >= 2
    ensures c.entryMode % 2 == r.entryMode % 2 && c.entryMode / 4 == r.entryMode / 4
    ensures c.displayControl == r.displayControl && c.functionSet == r.functionSet
    ensures r.entryMode % 4 >= 2 ==> c == r
  {
    r.(entryMode := if r.entryMode % 4 < 2 then r.entryMode + 2 else r.entryMode)
  }

  /** The effect of one received byte on the configuration registers. Data
      writes and the remaining instructions act on display memory, the
      address counter or the shift position, which are not modelled. */
  function Execute(r: Registers, u: Unit): Registers
  {
    if u.charMode then r
    else match DecodeInstruction(u.value)
      case ClearDisplay => Cleared(r)
      case EntryModeSet(m) => r.(entryMode := m)
      case DisplayOnOff(c) => r.(displayControl := c)
      case FunctionSet(f) => r.(functionSet := f)
      case _ => r
  }

  function ExecuteAll(r: Registers, units: seq<Unit>): Registers
    decreases |units|
  {
    if |units| == 0 then r else ExecuteAll(Execute(r, units[0]), units[1..])
  }

  lemma {:induction false} ExecuteAllAppend(r: Registers, u1: seq<Unit>, u2: seq<Unit>)
    ensures ExecuteAll(r, u1 + u2) == ExecuteAll(ExecuteAll(r, u1), u2)
    decreases |u1|
  {
    if |u1| == 0 {
      assert u1 + u2 == u2;
    } else {
      assert (u1 + u2)[1..] == u1[1..] + u2;
      ExecuteAllAppend(Execute(r, u1[0]), u1[1..], u2);
    }
  }

  /** Executing one more byte after a prefix. */
  lemma ExecutePrefix(r: Registers, units: seq<Unit>, k: nat)
    requires k < |units|
    ensures ExecuteAll(r, units[..k + 1]) == Execute(ExecuteAll(r, units[..k]), units[k])
  {
    assert units[..k + 1] == units[..k] + [units[k]];
    ExecuteAllAppend(r, units[..k], [units[k]]);
    assert [units[k]][1..] == [];
  }

  /** A byte that selects no instruction leaves every register alone. */
  lemma {:induction false} ZeroBytesChangeNothing(r: Registers, units: seq<Unit>)
    requires forall k :: 0 <= k < |units| ==> units[k].value == 0
    ensures ExecuteAll(r, units) == r
    decreases |units|
  {
    if |units| > 0 {
      ZeroBytesChangeNothing(r, units[1..]);
    }
  }
}
