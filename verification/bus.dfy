/**
 The six signal lines between the Raspberry Pi and an HD44780-compatible
 controller in 4-bit mode: register select (RS), the enable strobe (E) and
 four data lines (DB4..DB7, held in the driver's pin table at indices 0..3).

 A driver run is a trace of pin writes and waits. The controller's side is
 modelled by `Frames`: it latches RS and the four data lines on every falling
 edge of the strobe, and `Decode` joins consecutive latched nibbles, high
 nibble first, into the bytes it receives.
 */
module Bus {
  import opened Bits

  /** Index into the driver's table of the four data-line pins. */
  type Pin = p: int | 0 <= p < 4

  datatype Event =
    | SetRS(high: bool)
    | SetData(pin: Pin, high: bool)
    | SetStrobe(high: bool)
    | Delay(ms: nat)

  type DataLines = d: seq<bool> | |d| == 4 witness [false, false, false, false]

  const AllLow: DataLines := [false, false, false, false]

  /** The level currently driven on every line. */
  datatype Lines = Lines(rs: bool, data: DataLines, strobe: bool)

  /** What the controller latched on one falling strobe edge. */
  datatype Frame = Frame(rs: bool, data: DataLines)

  /** Between transmissions the strobe rests low. */
  predicate Idle(l: Lines)
  {
    !l.strobe
  }

  function Step(l: Lines, e: Event): Lines
  {
    match e
    case SetRS(h) => l.(rs := h)
    case SetData(p, h) => l.(data := l.data[p := h])
    case SetStrobe(h) => l.(strobe := h)
    case Delay(_) => l
  }

  function Latched(l: Lines, e: Event): seq<Frame>
  {
    if e == SetStrobe(false) && l.strobe then [Frame(l.rs, l.data)] else []
  }

  /** The line levels after a trace. */
  function Run(l: Lines, t: seq<Event>): Lines
    decreases |t|
  {
    if |t| == 0 then l else Run(Step(l, t[0]), t[1..])
  }

  /** The frames the controller latches while a trace is played. */
  function Frames(l: Lines, t: seq<Event>): seq<Frame>
    decreases |t|
  {
    if |t| == 0 then [] else Latched(l, t[0]) + Frames(Step(l, t[0]), t[1..])
  }

  lemma {:induction false} RunAppend(l: Lines, t1: seq<Event>, t2: seq<Event>)
    ensures Run(l, t1 + t2) == Run(Run(l, t1), t2)
    ensures Frames(l, t1 + t2) == Frames(l, t1) + Frames(Run(l, t1), t2)
    decreases |t1|
  {
    if |t1| == 0 {
      assert t1 + t2 == t2;
    } else {
      assert (t1 + t2)[0] == t1[0];
      assert (t1 + t2)[1..] == t1[1..] + t2;
      RunAppend(Step(l, t1[0]), t1[1..], t2);
    }
  }

  lemma SingleStep(l: Lines, e: Event)
    ensures Run(l, [e]) == Step(l, e)
    ensures Frames(l, [e]) == Latched(l, e)
  {
    assert [e][1..] == [];
  }

  /** Playing one event and then the rest of a trace. */
  lemma RunCons(l: Lines, e: Event, t: seq<Event>)
    ensures Run(l, [e] + t) == Run(Step(l, e), t)
    ensures Frames(l, [e] + t) == Latched(l, e) + Frames(Step(l, e), t)
  {
    assert ([e] + t)[0] == e;
    assert ([e] + t)[1..] == t;
  }

  /** A wait changes no line and latches nothing. */
  lemma DelayFirst(l: Lines, ms: nat, t: seq<Event>)
    ensures Run(l, [Delay(ms)] + t) == Run(l, t)
    ensures Frames(l, [Delay(ms)] + t) == Frames(l, t)
  {
    RunCons(l, Delay(ms), t);
  }

  // ---------------------------------------------------------------------
  // The signal primitives both write4bits variants are assembled from.
  // ---------------------------------------------------------------------

  /** `GPIO_PINS.forEach(pin => pin.digitalWrite(0))`, from table index p on. */
  function DataLowFrom(p: nat): seq<Event>
    requires p <= 4
    decreases 4 - p
  {
    if p == 4 then [] else [SetData(p, false)] + DataLowFrom(p + 1)
  }

  /** `GPIO_PINS.forEach(pin => pin.digitalWrite(0))`: the four data pins
      are driven low in table order, and nothing else is written. */
  function AllDataLow(): (t: seq<Event>)
    ensures t == [SetData(0, false), SetData(1, false), SetData(2, false), SetData(3, false)]
  {
    DataLowFrom(0)
  }

  /** Drive the strobe to a level and hold it for `delayMicroseconds(1)`
      (which waits one millisecond). */
  function Hold(high: bool): seq<Event>
  {
    [SetStrobe(high), Delay(1)]
  }

  /** `pulseEnable()`: strobe low, high, low, each level held for a while. */
  function PulseEnable(): seq<Event>
  {
    Hold(false) + Hold(true) + Hold(false)
  }

  /** `pulseEnable()` touches only the strobe line: low, high, low, each
      level followed by a one-millisecond wait. */
  lemma PulseEnableOnlyStrobe()
    ensures PulseEnable() == [SetStrobe(false), Delay(1), SetStrobe(true), Delay(1), SetStrobe(false), Delay(1)]
    ensures forall e <- PulseEnable() :: e.SetStrobe? || e.Delay?
  {
  }

  /** `s[i] === '1'`; reading past the end of a string yields `undefined`. */
  predicate CharIs1(s: string, i: nat)
  {
    i < |s| && s[i] == '1'
  }

  /** The loop `for (i = from; i < stop; i++) if (s[i] === '1') GPIO_PINS[base - i].digitalWrite(level)`.
      The bounds on `base` keep every pin index it can touch inside the table. */
  function MarkSetBits(s: string, i: nat, stop: nat, base: int, level: bool): seq<Event>
    requires base < 4 + i && stop <= base + 1
    decreases stop - i
  {
    if i >= stop then []
    else (if CharIs1(s, i) then [SetData(base - i, level)] else [])
         + MarkSetBits(s, i + 1, stop, base, level)
  }

  /** Every write of the digit loop drives `level`, onto one of the pins
      `base - i` down to `base - stop + 1`. */
  lemma {:induction false} MarkSetBitsWrites(s: string, i: nat, stop: nat, base: int, level: bool)
    requires base < 4 + i && stop <= base + 1
    ensures forall e <- MarkSetBits(s, i, stop, base, level) ::
              e.SetData? && e.high == level && base - stop < e.pin <= base - i
    decreases stop - i
  {
    if i < stop {
      MarkSetBitsWrites(s, i + 1, stop, base, level);
    }
  }

  /** Data line k after `MarkSetBits` starting from level `d`: driven to
      `level` exactly when the loop reaches index `base - k` and finds a '1' there. */
  function MarkedLine(s: string, i: nat, stop: nat, base: int, level: bool, d: bool, k: int): bool
  {
    if i <= base - k < stop && CharIs1(s, base - k) then level else d
  }

  /** All four data lines after `MarkSetBits` starting from `d`. */
  function Marked(s: string, i: nat, stop: nat, base: int, level: bool, d: DataLines): DataLines
  {
    seq(4, k requires 0 <= k < 4 => MarkedLine(s, i, stop, base, level, d[k], k))
  }

  lemma MarkedAt(s: string, i: nat, stop: nat, base: int, level: bool, d: DataLines, k: int)
    requires 0 <= k < 4
    ensures Marked(s, i, stop, base, level, d)[k] == MarkedLine(s, i, stop, base, level, d[k], k)
  {
  }

  /** One nibble: clear the data lines, mark the set bits, pulse the strobe. */
  function NibbleBlock(s: string, i: nat, stop: nat, base: int, level: bool): seq<Event>
    requires base < 4 + i && stop <= base + 1
  {
    AllDataLow() + MarkSetBits(s, i, stop, base, level) + PulseEnable()
  }

  /** A nibble block leaves RS alone, and drives no data line to any level
      but 0 and `level`. */
  lemma NibbleBlockWrites(s: string, i: nat, stop: nat, base: int, level: bool)
    requires base < 4 + i && stop <= base + 1
    ensures forall e <- NibbleBlock(s, i, stop, base, level) :: !e.SetRS? && (e.SetData? && e.high ==> level)
  {
    MarkSetBitsWrites(s, i, stop, base, level);
    PulseEnableOnlyStrobe();
  }

  /** Driving the data lines low from index p on, when the lines before p are already low. */
  lemma {:induction false} DataLowFromEffect(l: Lines, p: nat)
    requires p <= 4
    requires forall k :: 0 <= k < p ==> !l.data[k]
    ensures Run(l, DataLowFrom(p)) == l.(data := AllLow)
    ensures Frames(l, DataLowFrom(p)) == []
    decreases 4 - p
  {
    if p < 4 {
      RunCons(l, SetData(p, false), DataLowFrom(p + 1));
      DataLowFromEffect(Step(l, SetData(p, false)), p + 1);
    } else {
      assert l.data == AllLow;
    }
  }

  lemma AllDataLowEffect(l: Lines)
    ensures Run(l, AllDataLow()) == l.(data := AllLow)
    ensures Frames(l, AllDataLow()) == []
  {
    DataLowFromEffect(l, 0);
  }

  /** Holding a strobe level latches a frame exactly when it is a falling edge. */
  lemma HoldEffect(l: Lines, high: bool)
    ensures Run(l, Hold(high)) == l.(strobe := high)
    ensures Frames(l, Hold(high)) == Latched(l, SetStrobe(high))
  {
    RunCons(l, SetStrobe(high), [Delay(1)]);
    SingleStep(l.(strobe := high), Delay(1));
  }

  lemma PulseEnableEffect(l: Lines)
    requires Idle(l)
    ensures Run(l, PulseEnable()) == l
    ensures Frames(l, PulseEnable()) == [Frame(l.rs, l.data)]
  {
    RunAppend(l, Hold(false) + Hold(true), Hold(false));
    RunAppend(l, Hold(false), Hold(true));
    HoldEffect(l, false);
    HoldEffect(l, true);
    HoldEffect(l.(strobe := true), false);
  }

  /** Marking from index i is the first index's write followed by marking from i + 1. */
  lemma MarkedStep(s: string, i: nat, stop: nat, base: int, level: bool, d: DataLines)
    requires base < 4 + i && i < stop <= base + 1
    ensures Marked(s, i + 1, stop, base, level, if CharIs1(s, i) then d[base - i := level] else d)
            == Marked(s, i, stop, base, level, d)
  {
    var d' := if CharIs1(s, i) then d[base - i := level] else d;
    forall k | 0 <= k < 4
      ensures Marked(s, i + 1, stop, base, level, d')[k] == Marked(s, i, stop, base, level, d)[k]
    {
      MarkedAt(s, i + 1, stop, base, level, d', k);
      MarkedAt(s, i, stop, base, level, d, k);
    }
  }

  lemma {:induction false} MarkSetBitsEffect(l: Lines, s: string, i: nat, stop: nat, base: int, level: bool)
    requires base < 4 + i && stop <= base + 1
    ensures Run(l, MarkSetBits(s, i, stop, base, level)) == l.(data := Marked(s, i, stop, base, level, l.data))
    ensures Frames(l, MarkSetBits(s, i, stop, base, level)) == []
    decreases stop - i
  {
    if i >= stop {
      assert Marked(s, i, stop, base, level, l.data) == l.data;
    } else {
      var head := if CharIs1(s, i) then [SetData(base - i, level)] else [];
      var rest := MarkSetBits(s, i + 1, stop, base, level);
      RunAppend(l, head, rest);
      var mid := Run(l, head);
      if CharIs1(s, i) {
        SingleStep(l, SetData(base - i, level));
      }
      MarkSetBitsEffect(mid, s, i + 1, stop, base, level);
      MarkedStep(s, i, stop, base, level, l.data);
    }
  }

  /** A nibble block leaves the strobe low and makes the controller latch
      exactly one frame: the current RS level and the marked data lines. */
  lemma NibbleBlockEffect(l: Lines, s: string, i: nat, stop: nat, base: int, level: bool)
    requires Idle(l)
    requires base < 4 + i && stop <= base + 1
    ensures Run(l, NibbleBlock(s, i, stop, base, level)) == Lines(l.rs, Marked(s, i, stop, base, level, AllLow), false)
    ensures Frames(l, NibbleBlock(s, i, stop, base, level)) == [Frame(l.rs, Marked(s, i, stop, base, level, AllLow))]
  {
    var low := AllDataLow();
    var mark := MarkSetBits(s, i, stop, base, level);
    RunAppend(l, low, mark);
    RunAppend(l, low + mark, PulseEnable());
    AllDataLowEffect(l);
    MarkSetBitsEffect(l.(data := AllLow), s, i, stop, base, level);
    PulseEnableEffect(Run(l, low + mark));
  }

  /** Driving RS and then playing two nibble blocks latches exactly two
      frames, both carrying the new RS level, and leaves the strobe low. */
  lemma RsThenTwoBlocks(l: Lines, rs: bool, s1: string, i1: nat, stop1: nat, base1: int,
                        s2: string, i2: nat, stop2: nat, base2: int, level: bool)
    requires Idle(l)
    requires base1 < 4 + i1 && stop1 <= base1 + 1
    requires base2 < 4 + i2 && stop2 <= base2 + 1
    ensures Frames(l, [SetRS(rs)] + NibbleBlock(s1, i1, stop1, base1, level) + NibbleBlock(s2, i2, stop2, base2, level))
            == [Frame(rs, Marked(s1, i1, stop1, base1, level, AllLow)), Frame(rs, Marked(s2, i2, stop2, base2, level, AllLow))]
    ensures Idle(Run(l, [SetRS(rs)] + NibbleBlock(s1, i1, stop1, base1, level) + NibbleBlock(s2, i2, stop2, base2, level)))
  {
    var head := [SetRS(rs)];
    var b1 := NibbleBlock(s1, i1, stop1, base1, level);
    var b2 := NibbleBlock(s2, i2, stop2, base2, level);
    RunAppend(l, head + b1, b2);
    RunAppend(l, head, b1);
    SingleStep(l, SetRS(rs));
    var l1 := l.(rs := rs);
    NibbleBlockEffect(l1, s1, i1, stop1, base1, level);
    NibbleBlockEffect(Run(l1, b1), s2, i2, stop2, base2, level);
  }

  // ---------------------------------------------------------------------
  // The controller's view: nibbles and bytes.
  // ---------------------------------------------------------------------

  type Byte = x: int | 0 <= x < 256

  /** Data line k carries bit k of the nibble. */
  function NibbleLines(x: nat): DataLines
  {
    [BitOf(x, 0), BitOf(x, 1), BitOf(x, 2), BitOf(x, 3)]
  }

  /** The nibble the controller reads off the data lines. */
  function NibbleValue(d: DataLines): (v: nat)
    ensures v < 16
  {
    (if d[0] then 1 else 0) + 2 * (if d[1] then 1 else 0)
    + 4 * (if d[2] then 1 else 0) + 8 * (if d[3] then 1 else 0)
  }

  /** Putting a nibble on the lines and reading it back gives the nibble. */
  lemma NibbleRoundTrip(x: nat)
    requires x < 16
    ensures NibbleValue(NibbleLines(x)) == x
  {
    assert BitOf(x, 1) == BitOf(x / 2, 0);
    assert BitOf(x, 2) == BitOf(x / 2, 1) == BitOf(x / 2 / 2, 0);
    assert BitOf(x, 3) == BitOf(x / 2, 2) == BitOf(x / 2 / 2, 1) == BitOf(x / 2 / 2 / 2, 0);
  }

  /** Reading the lines back and putting the value out again gives the same lines. */
  lemma NibbleLinesOfValue(d: DataLines)
    ensures NibbleLines(NibbleValue(d)) == d
  {
    var v := NibbleValue(d);
    assert BitOf(v, 1) == BitOf(v / 2, 0);
    assert BitOf(v, 2) == BitOf(v / 2, 1) == BitOf(v / 2 / 2, 0);
    assert BitOf(v, 3) == BitOf(v / 2, 2) == BitOf(v / 2 / 2, 1) == BitOf(v / 2 / 2 / 2, 0);
  }

  /** One byte as received by the controller, with the RS level it came with:
      RS high selects the data register (a character), RS low an instruction. */
  datatype Unit = Unit(charMode: bool, value: Byte)

  /** Pairs of latched frames, high nibble first, joined into received bytes;
      an unpaired last frame is still waiting for its partner. */
  function Decode(f: seq<Frame>): seq<Unit>
    decreases |f|
  {
    if |f| < 2 then []
    else [Unit(f[0].rs, 16 * NibbleValue(f[0].data) + NibbleValue(f[1].data))] + Decode(f[2..])
  }

  lemma {:induction false} DecodeAppend(f1: seq<Frame>, f2: seq<Frame>)
    requires |f1| % 2 == 0
    ensures Decode(f1 + f2) == Decode(f1) + Decode(f2)
    decreases |f1|
  {
    if |f1| == 0 {
      assert f1 + f2 == f2;
    } else {
      assert (f1 + f2)[2..] == f1[2..] + f2;
      DecodeAppend(f1[2..], f2);
    }
  }

  /** The bytes the controller receives while a trace is played. */
  function Sent(l: Lines, t: seq<Event>): seq<Unit>
  {
    Decode(Frames(l, t))
  }

  /** The two frames that carry a byte in 4-bit mode: high nibble, then low nibble. */
  function ByteFrames(charMode: bool, v: Byte): seq<Frame>
  {
    [Frame(charMode, NibbleLines(v / 16)), Frame(charMode, NibbleLines(v % 16))]
  }

  /** Splitting a byte into nibbles and joining them again recovers the byte. */
  lemma ByteFramesRoundTrip(charMode: bool, v: Byte)
    ensures Decode(ByteFrames(charMode, v)) == [Unit(charMode, v)]
  {
    NibbleRoundTrip(v / 16);
    NibbleRoundTrip(v % 16);
    var f := ByteFrames(charMode, v);
    assert f[2..] == [];
  }
}
