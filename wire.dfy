/**
 * What happens on the two bus lines, and how an observer reads it.
 *
 * A run of the master is recorded as a sequence of line events: the
 * writes to SCL and to the SDA output latch, the switches of SDA between
 * output and input, the levels read back from SDA, and the busy-wait
 * delays. A bus monitor turns those events into wire symbols (START and
 * STOP conditions and data bits, each bit with the side that drove it),
 * and a parser groups the symbols into frames: a byte followed by its
 * acknowledge bit (section 3.1.5 and 3.1.6 of the NXP I2C-bus
 * specification UM10204), or a START or STOP condition (section 3.1.4).
 */
module Wire {
  import opened Bits

  /** One action of the master on the line-control and timing primitives. */
  datatype Event =
    | SetScl(high: bool)    // IIC_SCL = level
    | SetSda(high: bool)    // IIC_SDA = level (the output latch)
    | SdaOut                // SDA_OUT()
    | SdaIn                 // SDA_IN()
    | Sample(high: bool)    // READ_SDA, and the level it returned
    | Delay(us: nat)        // delay_us(us)

  /**
   * A clock pulse in progress: SCL went high and has not come down yet.
   * `level` is the SDA level of the pulse, `byMaster` says whether the
   * master drove SDA when SCL rose, and `sampled` whether the master
   * read SDA during the pulse.
   */
  datatype Slot = NoPulse | Pulse(level: bool, byMaster: bool, sampled: bool)

  /** What the monitor knows of the lines. */
  datatype Monitor = Monitor(scl: bool, latch: bool, out: bool, slot: Slot)

  datatype Symbol =
    | StartCond             // SDA falls while SCL is high
    | StopCond              // SDA rises while SCL is high
    | Bit(high: bool, byMaster: bool)

  /** Protocol-level reading of a line trace. */
  datatype Frame =
    | Start
    | Stop
    | Sent(b: Byte)                       // the master sent b ...
    | Acked                               // ... and the device pulled SDA low on the 9th clock
    | Nacked                              // ... or left it high
    | Received(b: Byte, ackSent: bool)    // the master read b and answered ACK (true) or NACK
    | Stray                               // a symbol that fits no frame

  /** The monitor with the bus idle: both lines high, SDA driven, no pulse open. */
  const Idle := Monitor(true, true, true, NoPulse)

  /** The bit of a pulse that was cut short by a START or STOP: kept only if the master read it. */
  function Flush(s: Slot): seq<Symbol>
  {
    if s.Pulse? && s.sampled then [Bit(s.level, s.byMaster)] else []
  }

  /**
   * The symbols one event produces. A START or STOP is seen only when the
   * master changes the SDA latch while it drives SDA and SCL is high.
   * `SdaOut` and `SdaIn` produce nothing, so a switch of direction under a
   * high SCL that changed the line level would go unseen; the transactions
   * switch direction only with SCL low, or (the first step of `_iic_stop`
   * after a timed-out acknowledge) with the released line and the latch
   * both high.
   */
  function Emit(m: Monitor, e: Event): seq<Symbol>
  {
    match e
    case SetScl(h) =>
      if m.scl && !h && m.slot.Pulse? then [Bit(m.slot.level, m.slot.byMaster)] else []
    case SetSda(h) =>
      if m.out && m.scl && h != m.latch then Flush(m.slot) + [if h then StopCond else StartCond]
      else []
    case _ => []
  }

  /** The monitor after one event. */
  function Next(m: Monitor, e: Event): Monitor
  {
    match e
    case SetScl(h) =>
      if !m.scl && h then m.(scl := true, slot := Pulse(if m.out then m.latch else true, m.out, false))
      else if m.scl && !h then m.(scl := false, slot := NoPulse)
      else m
    case SetSda(h) =>
      if m.out && m.scl && h != m.latch then m.(latch := h, slot := NoPulse)
      else m.(latch := h)
    case SdaOut => m.(out := true)
    case SdaIn => m.(out := false)
    case Sample(h) =>
      if !m.out && m.scl && m.slot.Pulse? then m.(slot := Pulse(h, m.slot.byMaster, true)) else m
    case Delay(_) => m
  }

  /** The symbols a sequence of events produces from a given monitor state. */
  function Symbols(m: Monitor, t: seq<Event>): seq<Symbol>
    decreases |t|
  {
    if t == [] then [] else Emit(m, t[0]) + Symbols(Next(m, t[0]), t[1..])
  }

  /** The monitor state after a sequence of events. */
  function Run(m: Monitor, t: seq<Event>): Monitor
    decreases |t|
  {
    if t == [] then m else Run(Next(m, t[0]), t[1..])
  }

  /** Nine bits: eight driven by one side, then the acknowledge bit driven by the other. */
  predicate IsByteSlot(u: seq<Symbol>)
  {
    && |u| == 9
    && (forall i :: 0 <= i < 9 ==> u[i].Bit?)
    && (forall i :: 0 <= i < 8 ==> u[i].byMaster == u[0].byMaster)
    && u[8].byMaster != u[0].byMaster
  }

  function Levels(u: seq<Symbol>): (ls: seq<bool>)
    requires forall i :: 0 <= i < |u| ==> u[i].Bit?
    ensures |ls| == |u|
  {
    seq(|u|, i requires 0 <= i < |u| => u[i].high)
  }

  /** The frames of one byte slot: the byte is read MSB-first, as the receiving side does. */
  function SlotFrames(u: seq<Symbol>): seq<Frame>
    requires IsByteSlot(u)
  {
    var b := Accumulate(Levels(u[..8]));
    if u[0].byMaster then [Sent(b), if u[8].high then Nacked else Acked]
    else [Received(b, !u[8].high)]
  }

  /** Groups wire symbols into frames, left to right. */
  function Parse(s: seq<Symbol>): seq<Frame>
    decreases |s|
  {
    if s == [] then []
    else if s[0] == StartCond then [Start] + Parse(s[1..])
    else if s[0] == StopCond then [Stop] + Parse(s[1..])
    else if |s| >= 9 && IsByteSlot(s[..9]) then SlotFrames(s[..9]) + Parse(s[9..])
    else [Stray] + Parse(s[1..])
  }

  /** The frames an observer reads from a line trace that starts in monitor state m. */
  function Decode(m: Monitor, t: seq<Event>): seq<Frame>
  {
    Parse(Symbols(m, t))
  }

  // ---------------------------------------------------------------------------
  // The monitor is compositional
  // ---------------------------------------------------------------------------

  lemma {:induction false} SymbolsAppend(m: Monitor, a: seq<Event>, b: seq<Event>)
    ensures Symbols(m, a + b) == Symbols(m, a) + Symbols(Run(m, a), b)
    ensures Run(m, a + b) == Run(Run(m, a), b)
    decreases |a|
  {
    if a == [] {
      assert a + b == b;
    } else {
      assert (a + b)[0] == a[0];
      assert (a + b)[1..] == a[1..] + b;
      SymbolsAppend(Next(m, a[0]), a[1..], b);
    }
  }

  /** One event in front of a trace. */
  lemma SymbolsCons(m: Monitor, e: Event, t: seq<Event>)
    ensures Symbols(m, [e] + t) == Emit(m, e) + Symbols(Next(m, e), t)
    ensures Run(m, [e] + t) == Run(Next(m, e), t)
  {
    assert ([e] + t)[0] == e;
    assert ([e] + t)[1..] == t;
  }

  // ---------------------------------------------------------------------------
  // The parser is compositional over whole frames
  // ---------------------------------------------------------------------------

  /** `s` parses as `fs` whatever symbols follow it. */
  ghost predicate Parses(s: seq<Symbol>, fs: seq<Frame>)
  {
    forall tail {:trigger Parse(s + tail)} :: Parse(s + tail) == fs + Parse(tail)
  }

  lemma ParsesEmpty()
    ensures Parses([], [])
  {
    forall tail: seq<Symbol> ensures Parse([] + tail) == [] + Parse(tail) {
      assert [] + tail == tail;
    }
  }

  /** Whole frames compose: the parse of a concatenation is the concatenation of the parses. */
  lemma ParsesAppend(a: seq<Symbol>, fa: seq<Frame>, b: seq<Symbol>, fb: seq<Frame>)
    requires Parses(a, fa) && Parses(b, fb)
    ensures Parses(a + b, fa + fb)
  {
    forall tail ensures Parse((a + b) + tail) == (fa + fb) + Parse(tail) {
      assert (a + b) + tail == a + (b + tail);
      assert Parse(a + (b + tail)) == fa + Parse(b + tail);
      assert Parse(b + tail) == fb + Parse(tail);
      assert fa + (fb + Parse(tail)) == (fa + fb) + Parse(tail);
    }
  }

  lemma ParseStart(rest: seq<Symbol>)
    ensures Parse([StartCond] + rest) == [Start] + Parse(rest)
  {
    assert ([StartCond] + rest)[1..] == rest;
  }

  lemma ParseStop(rest: seq<Symbol>)
    ensures Parse([StopCond] + rest) == [Stop] + Parse(rest)
  {
    assert ([StopCond] + rest)[1..] == rest;
  }

  /** The wire symbols of eight bits driven by one side. */
  function DataBits(levels: seq<bool>, byMaster: bool): (s: seq<Symbol>)
    ensures |s| == |levels|
  {
    seq(|levels|, i requires 0 <= i < |levels| => Bit(levels[i], byMaster))
  }

  /** The symbols of all levels but the last, then the last. */
  lemma DataBitsLast(levels: seq<bool>, byMaster: bool)
    requires levels != []
    ensures DataBits(levels, byMaster)
         == DataBits(levels[..|levels| - 1], byMaster) + [Bit(levels[|levels| - 1], byMaster)]
  {
  }

  /**
   * A byte the master sends, followed by the acknowledge bit the device
   * drives, parses as that byte and its acknowledgement, whatever follows.
   */
  lemma ParseSent(b: Byte, ackLevel: bool, rest: seq<Symbol>)
    ensures Parse(DataBits(TxBits(b), true) + [Bit(ackLevel, false)] + rest)
         == [Sent(b), if ackLevel then Nacked else Acked] + Parse(rest)
  {
    var u := DataBits(TxBits(b), true) + [Bit(ackLevel, false)];
    var s := u + rest;
    assert s[..9] == u;
    assert s[9..] == rest;
    assert s[0] == Bit(TxBits(b)[0], true);
    assert Levels(u[..8]) == TxBits(b);
    TxRoundTrip(b);
  }

  /**
   * Eight bits the device drives, followed by the acknowledge bit the
   * master drives, parse as the received byte and the answer sent.
   */
  lemma ParseReceived(levels: seq<bool>, ackLevel: bool, rest: seq<Symbol>)
    requires |levels| == 8
    ensures Parse(DataBits(levels, false) + [Bit(ackLevel, true)] + rest)
         == [Received(Accumulate(levels), !ackLevel)] + Parse(rest)
  {
    var u := DataBits(levels, false) + [Bit(ackLevel, true)];
    var s := u + rest;
    assert s[..9] == u;
    assert s[9..] == rest;
    assert s[0] == Bit(levels[0], false);
    assert Levels(u[..8]) == levels;
  }

  lemma StartParses()
    ensures Parses([StartCond], [Start])
  {
    forall tail ensures Parse([StartCond] + tail) == [Start] + Parse(tail) {
      ParseStart(tail);
    }
  }

  lemma StopParses()
    ensures Parses([StopCond], [Stop])
  {
    forall tail ensures Parse([StopCond] + tail) == [Stop] + Parse(tail) {
      ParseStop(tail);
    }
  }

  lemma SentParses(b: Byte, ackLevel: bool)
    ensures Parses(DataBits(TxBits(b), true) + [Bit(ackLevel, false)], [Sent(b), if ackLevel then Nacked else Acked])
  {
    forall tail
      ensures Parse(DataBits(TxBits(b), true) + [Bit(ackLevel, false)] + tail)
           == [Sent(b), if ackLevel then Nacked else Acked] + Parse(tail)
    {
      ParseSent(b, ackLevel, tail);
    }
  }

  lemma ReceivedParses(levels: seq<bool>, ackLevel: bool)
    requires |levels| == 8
    ensures Parses(DataBits(levels, false) + [Bit(ackLevel, true)], [Received(Accumulate(levels), !ackLevel)])
  {
    forall tail
      ensures Parse(DataBits(levels, false) + [Bit(ackLevel, true)] + tail)
           == [Received(Accumulate(levels), !ackLevel)] + Parse(tail)
    {
      ParseReceived(levels, ackLevel, tail);
    }
  }
}
