# HD44780 LCD drivers and servo sweep, modelled in Dafny

This project models three small Node.js scripts for a Raspberry Pi. Two of them drive an
HD44780-compatible character LCD over its 4-bit parallel interface. The third sweeps a servo
back and forth.

- `src/nodejs/lcd-simple/index.js` awaits every call. Its `write4bits` splits a byte into two
  nibbles and puts them on the four data lines. `init` sends the 4-bit handshake and the
  configuration commands. `main` clears the display and shows three messages in turn.
- `nodejs/rpi-lcd-full.js` has a second `write4bits`, the display toggles (`autoscroll` …
  `noDisplay`), `scrollDisplayLeft`/`scrollDisplayRight`, `setCursor`, `clear`, `home`, `begin`,
  a top-level start-up sequence and a `main` callback that cycles through three messages. None
  of its `write4bits` calls is awaited.
- `src/nodejs/servo/basic/index.js` runs an interval callback. It writes the current pulse
  width, adds the increment and turns the increment around at 1000 and 2000.

The model has two levels.

- **Signal level.** A driver run is a trace of pin writes and waits (`Bus.Event`). The
  controller's side is an interpreter. It latches RS and the four data lines on every falling
  edge of the enable strobe (`Bus.Frames`). It then joins consecutive nibbles, high nibble
  first, into the bytes it receives (`Bus.Decode`, `Bus.Sent`). This decoder is the independent
  reference that both `write4bits` encoders are proved against.
- **Driver level.** Each script operation is a pure function from the script's globals
  (`Driver.State`: the three flag bytes, the line count, the current line, the message index)
  to the next globals plus the list of `write4bits` calls it makes (`Driver.Transition`).
  `Driver.Intended` says which bytes those calls are meant to deliver. `Hd44780.Execute` says
  what a received byte does to the controller's configuration registers.

Modules:

| module | file | what it holds |
|---|---|---|
| `Bits` | bits.dfy | `toString(2)`, `padStart` and the bit arithmetic they are proved equal to |
| `Bus` | bus.dfy | pin events, the strobe-latching interpreter, the nibble and byte decoder |
| `Hd44780` | hd44780.dfy | the command constants, the instruction decoder and encoder, the configuration registers |
| `Driver` | driver.dfy | what both LCD scripts share: actions, intended bytes, `message`, flags, state |
| `LcdSimple` | lcd_simple.dfy | the awaited script |
| `LcdFull` | lcd_full.dfy | the script with the toggles, `setCursor`, `begin` and the unawaited calls |
| `Servo` | servo.dfy | the servo sweep |

What is proved, in brief:

- **lcd-simple.** Every byte below 256 reaches the controller intact, in the register that
  `char_mode` selects (`LcdSimple.Write4BitsSent`). A byte of 256 or more sends nothing.
  `init` followed by any number of `main` passes delivers exactly the start-up commands, then
  messages 0, 1, 2 again and again, each after a clear.
- **rpi-lcd-full, as written.** Set digits drive their line to 0, and the second loop reads
  past the end of a four-character string. So every data line is low in every latched nibble,
  and the controller receives only zero bytes. These keep every configuration register
  unchanged. Starting from low data lines, every latched nibble is 0 for every order in which
  the unawaited calls' pin writes could interleave (`LcdFull.AnyOrderLatchesZeros`).
- **rpi-lcd-full, intended behaviour.** The flag toggles, `setCursor`, `begin` and `main`
  are also proved against the bytes the calls are meant to deliver, and against a corrected
  `write4bits` (see Findings).
- **Servo.** The sweep stays in [1000, 2000] in steps of 100. It follows a triangle wave of
  period 20.

Behaviour of the scripts worth knowing:

- `setCursor` replaces a row only when `row > numlines`. A row equal to the line count is let
  through unchanged.
- In `rpi-lcd-full.js` the delays after `clear` and `home` are not awaited, and neither is any
  `write4bits` call.
- `write4bits` sends the magnitude of a negative argument.
- `rpi-lcd-full.js` has `noBlink()` but no `blink()`.
- `delayMicroseconds(n)` waits n milliseconds.

## Model

| member | source | states |
|---|---|---|
| Bits.ToBinary | src/nodejs/lcd-simple/index.js:121 | `n.toString(2)` holds only the digits 0 and 1, and starts with 1 unless n is 0: the shortest binary numeral |
| Bits.PadStart | nodejs/rpi-lcd-full.js:115 | `padStart(width, fill)` returns a string of the wider of the two lengths; it ends with the original string and starts with fill characters only |
| Bits.PaddedBinary | src/nodejs/lcd-simple/index.js:121-122 | zero-padding `n.toString(2)` to any width that can hold n gives the fixed-width numeral with bit `width - 1 - i` of n at position i |
| Bits.ByteBinary | src/nodejs/lcd-simple/index.js:121-122 | for a byte, the eight-character numeral the script builds has bit `7 - i` of the byte at position i |
| Bits.HighNibbleBit | src/nodejs/lcd-simple/index.js:121 | the first four digits are the bits of `n / 16`: bit k of the high nibble is bit k + 4 of the byte |
| Bits.LowNibbleBit | src/nodejs/lcd-simple/index.js:122 | the last four digits are the bits of `n % 16`: bit k of the low nibble is bit k of the byte |
| Bus.PulseEnableOnlyStrobe | src/nodejs/lcd-simple/index.js:94-101 | `pulseEnable` writes only the strobe line: low, high, low, each level followed by a one-millisecond wait |
| Bus.PulseEnableEffect | src/nodejs/lcd-simple/index.js:94-101 | `pulseEnable` (low, high, low) makes the controller latch exactly one frame, carrying the current RS and data levels, and leaves every line as it found it |
| Bus.AllDataLow | src/nodejs/lcd-simple/index.js:127-129 | the `forEach` drives the four data pins to 0, in table order, and writes nothing else |
| Bus.AllDataLowEffect | src/nodejs/lcd-simple/index.js:127-129 | driving every data pin to 0 leaves all four data lines low and latches nothing |
| Bus.MarkSetBitsWrites | src/nodejs/lcd-simple/index.js:133-137 | every write of the digit loop drives the loop's level, onto a pin between `base - stop + 1` and `base - i`, so never outside the pin table |
| Bus.MarkSetBitsEffect | src/nodejs/lcd-simple/index.js:133-137 | the digit loop drives data line `base - i` to the level for every digit i that is '1', leaves the other lines alone and latches nothing |
| Bus.NibbleBlockWrites | src/nodejs/lcd-simple/index.js:127-139 | one nibble block never drives RS, and drives a data line high only if the loop's level is 1 |
| Bus.NibbleBlockEffect | src/nodejs/lcd-simple/index.js:127-139 | clearing the lines, running the digit loop and pulsing the strobe latches exactly one frame holding the lines the loop marked |
| Bus.RsThenTwoBlocks | src/nodejs/lcd-simple/index.js:125-153 | driving RS and running two nibble blocks latches exactly two frames, both with that RS level, and leaves the strobe low |
| Bus.NibbleRoundTrip | src/nodejs/lcd-simple/index.js:133-137 | a nibble put on the lines (line k carrying bit k) is read back by the controller as the same nibble |
| Bus.NibbleLinesOfValue | src/nodejs/lcd-simple/index.js:133-137 | reading the four lines and putting that value out again gives the same lines |
| Bus.ByteFramesRoundTrip | src/nodejs/lcd-simple/index.js:133-153 | two frames, high nibble first, decode to exactly the byte they were made from |
| Hd44780.DecodeInstruction | nodejs/rpi-lcd-full.js:4-41 | every byte decodes to a well-formed instruction, and only the zero byte decodes to no instruction |
| Hd44780.DecodeEncode | nodejs/rpi-lcd-full.js:4-41 | an instruction written as its command constant OR-ed with its operand decodes back to itself |
| Hd44780.EncodeDecode | nodejs/rpi-lcd-full.js:4-41 | decoding forgets only don't-care bits: re-encoding a decoded byte decodes to the same instruction |
| Hd44780.ConstantCommands | nodejs/rpi-lcd-full.js:4-33 | the fixed bytes the scripts send select: 0x01 clear display, 0x02 return home, 0x1C and 0x18 shift the display right and left, 0xC0 set the address to 0x40, the start of the second line |
| Hd44780.Cleared | nodejs/rpi-lcd-full.js:5 | Clear Display (0x01) sets the entry mode's increment bit I/D, keeps its shift bit S and every other register, and changes nothing when I/D is already set |
| Hd44780.ZeroBytesChangeNothing | nodejs/rpi-lcd-full.js:119-141 | a run of zero bytes leaves every configuration register of the controller unchanged |
| Driver.Abs | src/nodejs/lcd-simple/index.js:118 | `Math.abs(bits)` is non-negative and equals bits or -bits |
| Driver.Message | nodejs/rpi-lcd-full.js:77-82 | `message` makes one `write4bits` call per character, in order, and char_mode is true exactly for the characters that are not newlines |
| Driver.MessageIntended | src/nodejs/lcd-simple/index.js:77-88 | the calls of `message` are meant to deliver, in order, the instruction 0xC0 for each newline, the character code as data for every other character below U+0100, and nothing for a character from U+0100 up |
| Driver.CommandsIntended | src/nodejs/lcd-simple/index.js:163-167 | a run of command writes of byte-sized values delivers exactly those values as instructions |
| Driver.DisplayControlCommand | nodejs/rpi-lcd-full.js:203-242 | the composite `LCD_DISPLAYCONTROL \| displayControl` byte sets the controller's display on/off register to the flag byte and changes nothing else |
| Driver.EntryModeCommand | nodejs/rpi-lcd-full.js:151-181 | the composite `LCD_ENTRYMODESET \| displayMode` byte sets the controller's entry-mode register to the flag byte and changes nothing else |
| LcdSimple.Write4Bits | src/nodejs/lcd-simple/index.js:116-155 | `write4bits` writes nothing exactly when `\|bits\| >= 256`; otherwise its first write drives RS to char_mode |
| LcdSimple.Write4BitsRS | src/nodejs/lcd-simple/index.js:116-155 | `write4bits` never drives RS to any level but char_mode |
| LcdSimple.HighBlockCarriesHighNibble | src/nodejs/lcd-simple/index.js:121-137 | the first nibble block drives data line k to bit k of `n / 16` |
| LcdSimple.LowBlockCarriesLowNibble | src/nodejs/lcd-simple/index.js:122-151 | the second nibble block drives data line k to bit k of `n % 16` |
| LcdSimple.Write4BitsFrames | src/nodejs/lcd-simple/index.js:116-155 | for a magnitude below 256, the controller latches the high nibble frame and then the low nibble frame, with RS at char_mode; otherwise nothing is sent; the strobe ends low |
| LcdSimple.Write4BitsSent | src/nodejs/lcd-simple/index.js:116-155 | round trip: the controller receives exactly `\|bits\|` in the register char_mode selects, or nothing when `\|bits\| >= 256` |
| LcdSimple.CallSent | src/nodejs/lcd-simple/index.js:116-155 | one awaited call (a `write4bits` or a wait) delivers exactly the bytes it is meant to, as whole bytes, and leaves the strobe low |
| LcdSimple.Transmit | src/nodejs/lcd-simple/index.js:116-155 | when awaited calls are played one after another and the first is a `write4bits` of a byte-sized value, the first thing written is RS at its char_mode |
| LcdSimple.TransmitSent | src/nodejs/lcd-simple/index.js:116-155 | any run of awaited calls delivers exactly the bytes the calls are meant to deliver, in order |
| LcdSimple.MessageSent | src/nodejs/lcd-simple/index.js:77-88 | showing a text puts, in order, on the bus: 0xC0 as an instruction for a newline, the character code as data for every other character below U+0100, and nothing for a character from U+0100 up |
| LcdSimple.Clear | src/nodejs/lcd-simple/index.js:157-160 | `clear()` is meant to deliver the single byte 0x01, and its last action is the awaited 3000 ms wait |
| LcdSimple.Init | src/nodejs/lcd-simple/index.js:162-175 | `init()` leaves flag bytes that fit their instructions' fields and changes no other global |
| LcdSimple.InitIntended | src/nodejs/lcd-simple/index.js:162-175 | `init()` is meant to deliver 0x33, 0x32, 0x28, 0x0C, 0x06, 0x06 and 0x01, in that order |
| LcdSimple.InitRegisters | src/nodejs/lcd-simple/index.js:163-175 | after those bytes the controller holds function set 0x08, display control 0x04 and entry mode 0x02, whatever it held before |
| LcdSimple.InitSent | src/nodejs/lcd-simple/index.js:162-175 | `init()` puts exactly those seven bytes on the bus; the flag bytes become 0x04, 0x02 and 0x08 and agree with the controller's registers |
| LcdSimple.Round | src/nodejs/lcd-simple/index.js:185-187 | one round starts with the clear command, makes one call per character of the message and ends with the 2000 ms wait |
| LcdSimple.RoundIntended | src/nodejs/lcd-simple/index.js:185-187 | clearing, showing a message and waiting is meant to deliver 0x01 followed by the message's bytes |
| LcdSimple.MainPass | src/nodejs/lcd-simple/index.js:183-196 | a `main` pass changes no global but the message index, which it leaves at 0 |
| LcdSimple.MainPassIntended | src/nodejs/lcd-simple/index.js:183-194 | a pass starting at index i is meant to show messages i, i + 1 and i + 2, each after a clear |
| LcdSimple.MainPassSent | src/nodejs/lcd-simple/index.js:183-194 | a pass puts exactly those bytes on the bus and leaves the index at 0 |
| LcdSimple.Passes | src/nodejs/lcd-simple/index.js:183-196 | repeated passes keep the flag bytes and leave the index at 0 once at least one pass has run |
| LcdSimple.PassesIntended | src/nodejs/lcd-simple/index.js:183-196 | passes started at index 0 all show messages 0, 1 and 2 |
| LcdSimple.Program | src/nodejs/lcd-simple/index.js:162-224 | after `init()` and any number of passes, the index is 0 and the flag bytes are 0x04, 0x02 and 0x08 |
| LcdSimple.ProgramIntended | src/nodejs/lcd-simple/index.js:162-224 | the whole script is meant to deliver the start-up bytes and then, pass after pass, messages 0, 1 and 2 each after a clear |
| LcdSimple.ProgramSent | src/nodejs/lcd-simple/index.js:162-224 | the controller receives exactly those bytes |
| LcdFull.StrobesWrites | nodejs/rpi-lcd-full.js:117-143 | whatever the digit string, no write drives a data line high, and RS is only ever driven to char_mode |
| LcdFull.StrobesFrames | nodejs/rpi-lcd-full.js:117-143 | whatever the digit string, the two nibble blocks latch two frames with RS at char_mode and every data line low |
| LcdFull.Write4Bits | nodejs/rpi-lcd-full.js:110-145 | `write4bits` writes nothing exactly when `\|bits\| >= 256` |
| LcdFull.Write4BitsDataLow | nodejs/rpi-lcd-full.js:110-145 | no write of `write4bits` drives a data line high, whatever the value |
| LcdFull.Write4BitsFrames | nodejs/rpi-lcd-full.js:110-145 | for a magnitude below 256, the controller latches two all-low frames with RS at char_mode, whatever the value; otherwise nothing |
| LcdFull.Blank | nodejs/rpi-lcd-full.js:119-141 | the bytes that arrive: as many as meant, each in the register meant, each 0 |
| LcdFull.Write4BitsSent | nodejs/rpi-lcd-full.js:110-145 | one call delivers the byte it is meant to deliver, but as 0 |
| LcdFull.CallSent | nodejs/rpi-lcd-full.js:110-145 | one call, played to completion, delivers the bytes it is meant to deliver with every value replaced by 0, and leaves the strobe low |
| LcdFull.TransmitSent | nodejs/rpi-lcd-full.js:110-145 | any run of calls, each played to completion, delivers the meant bytes with every value replaced by 0 |
| LcdFull.TransmitConfiguresNothing | nodejs/rpi-lcd-full.js:110-145 | whatever the script sends, the controller's configuration registers keep their values |
| LcdFull.TransmitDataLow | nodejs/rpi-lcd-full.js:110-145 | no pin write of any run of calls drives a data line high |
| LcdFull.LowStaysLow | nodejs/rpi-lcd-full.js:119-141 | from all-low data lines, a trace that never drives a data line high latches only frames whose data lines are all low |
| LcdFull.AnyOrderLatchesZeros | nodejs/rpi-lcd-full.js:110-145 | for any reordering of the pin writes of the unawaited calls, every latched frame has all four data lines low |
| LcdFull.SetFlag | nodejs/rpi-lcd-full.js:160-163 | `flags \|= mask` then the composite command: the masked bits become set, the other bits and all other state are unchanged, and one command carrying the new byte is sent |
| LcdFull.ClearFlag | nodejs/rpi-lcd-full.js:151-154 | `flags &= ~mask` then the composite command: the masked bits become clear, the other bits and all other state are unchanged, and one command carrying the new byte is sent |
| LcdFull.NoAutoscroll | nodejs/rpi-lcd-full.js:151-154 | clears the shift-increment bit of the entry-mode byte and sends only the entry-mode command |
| LcdFull.Autoscroll | nodejs/rpi-lcd-full.js:160-163 | sets the shift-increment bit of the entry-mode byte and sends only the entry-mode command |
| LcdFull.RightToLeft | nodejs/rpi-lcd-full.js:169-172 | clears the entry-left bit and sends only the entry-mode command |
| LcdFull.LeftToRight | nodejs/rpi-lcd-full.js:178-181 | sets the entry-left bit and sends only the entry-mode command |
| LcdFull.NoBlink | nodejs/rpi-lcd-full.js:203-206 | clears the blink bit of the display-control byte and sends only the display-control command |
| LcdFull.Cursor | nodejs/rpi-lcd-full.js:212-215 | sets the cursor bit and sends only the display-control command |
| LcdFull.NoCursor | nodejs/rpi-lcd-full.js:221-224 | clears the cursor bit and sends only the display-control command |
| LcdFull.Display | nodejs/rpi-lcd-full.js:230-233 | sets the display-on bit and sends only the display-control command |
| LcdFull.NoDisplay | nodejs/rpi-lcd-full.js:239-242 | clears the display-on bit and sends only the display-control command |
| LcdFull.CursorUndone | nodejs/rpi-lcd-full.js:212-224 | `cursor(); noCursor()` gives back the starting state if and only if the cursor bit was clear before |
| LcdFull.ToggleIdempotent | nodejs/rpi-lcd-full.js:151-242 | doing any toggle a second time leaves the same state and sends the same command again |
| LcdFull.NoCursorTwice | nodejs/rpi-lcd-full.js:221-224 | `noCursor()` twice is `noCursor()` once, the re-sent command included |
| LcdFull.ToggleAgreesAsMeant | nodejs/rpi-lcd-full.js:151-242 | if the controller received the command as meant, its registers would still agree with the flag bytes after any toggle |
| LcdFull.ToggleDisagreesAsSent | nodejs/rpi-lcd-full.js:151-242 | the byte that actually arrives is 0, so a toggle that changes its flag byte leaves flags and registers disagreeing |
| LcdFull.ScrollDisplayRight | nodejs/rpi-lcd-full.js:187-189 | is meant to deliver only 0x1C, and changes no global |
| LcdFull.ScrollDisplayLeft | nodejs/rpi-lcd-full.js:195-197 | is meant to deliver only 0x18, and changes no global |
| LcdFull.Clear | nodejs/rpi-lcd-full.js:255-258 | `clear()` is meant to deliver only 0x01 and makes no wait: every action it takes is a write, because its delay is not awaited |
| LcdFull.Home | nodejs/rpi-lcd-full.js:260-263 | `home()` is meant to deliver only 0x02 and makes no wait: every action it takes is a write, because its delay is not awaited |
| LcdFull.RowOffset | nodejs/rpi-lcd-full.js:245 | the offset table has an entry exactly for rows 0 to 3 |
| LcdFull.TargetRow | nodejs/rpi-lcd-full.js:247-250 | a row above the line count becomes `numlines - 1`; any other row, the line count itself included, is kept |
| LcdFull.ToInt32 | nodejs/rpi-lcd-full.js:252 | the operand of `\|` is the signed 32-bit integer congruent to the sum modulo 2^32 |
| LcdFull.OrBit7 | nodejs/rpi-lcd-full.js:252 | `0x80 \| y` sets bit 7 and keeps every other bit of y |
| LcdFull.DdramCommand | nodejs/rpi-lcd-full.js:252 | the argument always has bit 7 set; an undefined offset gives 0x80, and an address from 0 to 127 gives `0x80 + address` |
| LcdFull.SetCursor | nodejs/rpi-lcd-full.js:244-253 | `setCursor` changes no global and makes one command write |
| LcdFull.SetCursorAddress | nodejs/rpi-lcd-full.js:244-253 | for a row in the table and an address below 128, the command is the set-DDRAM-address instruction for `col + rowOffsets[row]` |
| LcdFull.SetCursorClampsHighRow | nodejs/rpi-lcd-full.js:247-252 | on two lines, `setCursor(5, 99)` goes to row 1 and sends 0xC5 |
| LcdFull.SetCursorRowEqualToLines | nodejs/rpi-lcd-full.js:247-252 | on two lines, `setCursor(0, 2)` is not clamped and sends 0x94 |
| LcdFull.SetCursorUndefinedRow | nodejs/rpi-lcd-full.js:245-252 | a row outside the table makes the address NaN, and the command is 0x80 |
| LcdFull.SetCursorMinusOneClears | nodejs/rpi-lcd-full.js:252 | `setCursor(-1, 0)` computes -1, whose magnitude 1 is sent, so the display is cleared |
| LcdFull.FixedTargetRow | nodejs/rpi-lcd-full.js:247-250 | the corrected clamp: every row from the line count upwards becomes `numlines - 1` |
| LcdFull.FixedSetCursor | nodejs/rpi-lcd-full.js:244-253 | `setCursor` with the corrected clamp changes no global and makes one command write |
| LcdFull.FixedSetCursorOnALine | nodejs/rpi-lcd-full.js:244-253 | with the corrected clamp, any row from 0 lands on a configured line, and the command addresses column col of that line |
| LcdFull.FixedSetCursorRowEqualToLines | nodejs/rpi-lcd-full.js:247-252 | with the corrected clamp, `setCursor(0, 2)` on two lines sends 0xC0, the start of the second line |
| LcdFull.Begin | nodejs/rpi-lcd-full.js:265-271 | for more than one line: records the count, sets the two-line bit, resets the current line and sends nothing; otherwise changes nothing |
| LcdFull.BeginAgreement | nodejs/rpi-lcd-full.js:265-271 | since no command is sent, flags and controller still agree afterwards if and only if `lines <= 1` or the two-line bit was already set |
| LcdFull.Main | nodejs/rpi-lcd-full.js:276-285 | `main()` is meant to deliver 0x01 and then the current message; it advances the index from i to `(i + 1) % 3` and changes nothing else |
| LcdFull.Runs | nodejs/rpi-lcd-full.js:276-285 | repeated runs of `main()` keep the flag bytes and the line count |
| LcdFull.RunsCycle | nodejs/rpi-lcd-full.js:276-285 | runs starting at index i show messages i, i + 1, … modulo 3, each after a clear |
| LcdFull.RunsIndex | nodejs/rpi-lcd-full.js:280-284 | after count runs from index i in 0..2, the index is `(i + count) % 3`, so it stays in 0..2 |
| LcdFull.Start | nodejs/rpi-lcd-full.js:296-321 | the start-up leaves flag bytes that fit their fields, two lines, current line 0 and index 0 |
| LcdFull.StartIntended | nodejs/rpi-lcd-full.js:296-321 | the start-up is meant to deliver 0x33, 0x32, 0x28, 0x0C, 0x06, 0x06 and 0x01, and it leaves the flag bytes at 0x04, 0x02 and 0x08 |
| LcdFull.Program | nodejs/rpi-lcd-full.js:296-323 | after the start-up and count runs of `main()`, the flag bytes are those of the start-up and the index is `count % 3` |
| LcdFull.ProgramSent | nodejs/rpi-lcd-full.js:296-323 | the script is meant to deliver the start-up bytes and then messages 0, 1, 2, 0, … each after a clear; what arrives is the same number of bytes in the same registers, all 0, and the configuration registers never change |
| LcdFull.Write4BitsLosesValue | nodejs/rpi-lcd-full.js:115-141 | as written, showing 'A' (0x41) puts the data byte 0x00 on the bus |
| LcdFull.FixedWrite4Bits | nodejs/rpi-lcd-full.js:110-145 | the corrected `write4bits` writes nothing exactly when `\|bits\| >= 256`; otherwise it waits 1000 ms and then drives RS to char_mode |
| LcdFull.FixedWrite4BitsSent | nodejs/rpi-lcd-full.js:110-145 | the corrected `write4bits` delivers exactly the byte it is meant to deliver |
| LcdFull.FixedCallSent | nodejs/rpi-lcd-full.js:110-145 | with the corrected `write4bits`, one call delivers exactly the bytes it is meant to and leaves the strobe low |
| LcdFull.FixedTransmitSent | nodejs/rpi-lcd-full.js:110-145 | with the corrected `write4bits`, any run of calls delivers exactly the meant bytes |
| LcdFull.TextKeepsRegisters | nodejs/rpi-lcd-full.js:77-82 | the bytes of a message never change a configuration register |
| LcdFull.ShownKeepsRegisters | nodejs/rpi-lcd-full.js:276-285 | clearing and showing messages changes no configuration register except that a clear sets the entry mode's increment bit; from a state with that bit set, nothing changes |
| LcdFull.FixedProgramSent | nodejs/rpi-lcd-full.js:296-323 | with the corrected `write4bits`, the script delivers the start-up bytes and the messages exactly, and afterwards the flag bytes agree with the controller's registers |
| Servo.Step | src/nodejs/servo/basic/index.js:16-24 | the callback writes the current width and adds the increment; the increment becomes -100 once the width reaches 2000, becomes +100 once it reaches 1000, and is otherwise kept |
| Servo.StepValid | src/nodejs/servo/basic/index.js:14-24 | from a state whose width is a multiple of 100 in [1000, 2000], with the increment ±100 pointing back into the range at either end, the callback writes a width in [1000, 2000] and leaves such a state |
| Servo.InitialValid | src/nodejs/servo/basic/index.js:14-15 | the initial width 1000 and increment 100 form such a state |
| Servo.After | src/nodejs/servo/basic/index.js:16-24 | from a state that satisfies the invariant, the width stays in [1000, 2000] however many callbacks run |
| Servo.AfterValid | src/nodejs/servo/basic/index.js:14-24 | that property holds after any number of callbacks |
| Servo.Triangle | src/nodejs/servo/basic/index.js:14-24 | the reference wave stays in [1000, 2000] in multiples of 100 |
| Servo.StepFollowsTriangle | src/nodejs/servo/basic/index.js:19-24 | one callback moves a state on the reference wave one step along it |
| Servo.AfterIsTriangle | src/nodejs/servo/basic/index.js:14-24 | after k callbacks the state is step k of the wave 1000, 1100, …, 2000, 1900, …, 1100, 1000, … |
| Servo.SweepPeriodic | src/nodejs/servo/basic/index.js:14-24 | the callback's state repeats every 20 runs |
| Servo.Run | src/nodejs/servo/basic/index.js:16-25 | the first count widths written to the servo are steps 0 to count - 1 of the wave, each in [1000, 2000] |

## Findings

| source | as written | input that shows it | evidently intended | confidence | as-written member | corrected member |
|---|---|---|---|---|---|---|
| nodejs/rpi-lcd-full.js:115-141 | set digits drive their data line to 0, and the second loop reads digits 4 to 7 of a four-character string, so every latched nibble is 0 | `write4bits(0x41, true)` (the letter 'A') makes the controller receive the data byte 0x00 | set digits drive their line to 1, and the last four digits of the eight-digit numeral go out second, as in `src/nodejs/lcd-simple/index.js` | high; not executed | LcdFull.Write4BitsLosesValue | LcdFull.FixedWrite4BitsSent |
| nodejs/rpi-lcd-full.js:247 | `row > numlines` lets a row equal to the line count through, and rows are counted from 0 | `setCursor(0, 2)` with two lines sends 0x94, address 0x14, which is not on the second line | `row >= numlines`, which puts every out-of-range row on the last line | medium; not executed | LcdFull.SetCursorRowEqualToLines | LcdFull.FixedSetCursorOnALine |

For the first finding, the script-level results are stated twice. `LcdFull.ProgramSent` covers the code as written. `LcdFull.FixedProgramSent` covers the corrected `write4bits`, `LcdFull.FixedWrite4Bits`. The corrected version is exactly the awaited script's encoder after the same 1000 ms wait. For the second finding, `LcdFull.FixedSetCursor` is `setCursor` with the corrected clamp.

## Left out

- Bus.Decode: the controller is assumed to be in 4-bit mode from the first latched nibble on, so
  every pair of frames is one byte. The 0x33, 0x32 handshake at the start of both scripts exists
  because a real controller may still be in 8-bit mode then. How it resynchronises is not
  modelled: the model decodes the handshake bytes as nibble pairs like any other byte.
- LcdSimple.ProgramSent: this and every other result about the bytes on the bus (`InitSent`,
  `MainPassSent`, `LcdFull.ProgramSent`, `LcdFull.FixedProgramSent`, …) assumes the strobe is low
  when the script starts (`Bus.Idle`). Neither script drives it low first, and the SIGINT handlers
  leave RS, the strobe and all data lines high. After such a restart, the first `pulseEnable`
  latches an extra frame and the nibbles pair up wrongly from then on. It also rests on the
  4-bit-mode assumption stated for `Bus.Decode`.
- LcdFull.AnyOrderLatchesZeros: it assumes the data lines start low. After the SIGINT handler
  has driven them high, the first nibble of a run can carry set bits.
- Text is iterated with `for … in`, which walks UTF-16 code units, not code points. A model
  string is a sequence of Unicode scalar values, so a character above U+FFFF is one `char` and
  one `write4bits` call in the model, but two surrogate code units and two calls in the script.
  Both send nothing, because every value involved is 256 or more.
- GPIO access is abstract. The model has pin writes and waits as trace events and no pigpio. Gpio objects, physical pin numbers, `initialize` and `terminate` are not modelled. The servo's `servoWrite` becomes the collected sequence of written widths.
- Wall-clock timing is not modelled. A wait is a `Delay` event whose length is kept but not interpreted. `setInterval` scheduling is replaced by a count of callback runs.
- In `rpi-lcd-full.js`, the unawaited calls are played one after another. Every reordering of their pin writes is covered only for the data lines (`LcdFull.AnyOrderLatchesZeros`). How RS and strobe writes of different calls could interleave is not modelled.
- The SIGINT cleanup handlers are process lifecycle and are not modelled: `src/nodejs/lcd-simple/index.js:57-70`, `nodejs/rpi-lcd-full.js:57-70` and `src/nodejs/servo/basic/index.js:4-10`.
- The `console.log` of `main` is not modelled.
- The message tables are parameters. The scripts' three literal strings are not built in.
- `Number(bits)` is only ever applied to integers here, so non-numeric and fractional arguments are not modelled. Likewise `setCursor` is modelled for integer `col` and `row`.
- Flag bytes are 8-bit values. The JavaScript values are 64-bit floats, and `&= ~mask` works on 32 bits. The flags only ever hold values below 256, so the 8-bit model gives the same results.
- The controller model tracks only the three configuration registers. Display memory, the address counter and the shift position are not modelled. So `setCursor`, `clear`, `home` and the text are checked as instructions and bytes, not for what the display shows.
- The module-level `begin` is never called by the script. It is modelled as an operation on its own.
