/**
 * The bit-level engine of the software I2C master (`_iic_start`,
 * `_iic_stop`, `_iic_wait_ack`, `_iic_ack`, `_iic_nack`, `_iic_send_byte`,
 * `_iic_read_byte`) as pure line programs: the exact sequence of line
 * events each helper performs, given the levels the device puts on SDA.
 * The lemmas say what the bus monitor of module Wire sees in them.
 */
module Engine {
  import opened Bits
  import opened Wire

  // ---------------------------------------------------------------------------
  // The device side: the SDA levels that READ_SDA returns, in order
  // ---------------------------------------------------------------------------

  /** The level of the i-th read of SDA; past the end of the script the released line reads high. */
  function Line(peer: seq<bool>, i: nat): bool
  {
    if i < |peer| then peer[i] else true
  }

  /** The script left after n reads. */
  function Drop(peer: seq<bool>, n: nat): seq<bool>
  {
    if n <= |peer| then peer[n..] else []
  }

  // ---------------------------------------------------------------------------
  // Line programs
  // ---------------------------------------------------------------------------

  /** Settle delays of the three bands the engine uses, in microseconds. */
  const ConditionDelay: nat := 15
  const BitDelay: nat := 10
  const AckDelay: nat := 20

  /** Upper bound of the acknowledge poll counter: one more high read fails. */
  const AckPollLimit: nat := 500

  /** `_iic_start`. */
  const StartSeq: seq<Event> :=
    [SdaOut, SetScl(true), Delay(ConditionDelay), SetSda(false), Delay(ConditionDelay),
     SetScl(false), Delay(ConditionDelay), SetSda(true), Delay(ConditionDelay)]

  /** `_iic_stop`. */
  const StopSeq: seq<Event> :=
    [SdaOut, SetSda(false), Delay(ConditionDelay), SetScl(true), Delay(ConditionDelay),
     SetSda(true), Delay(ConditionDelay)]

  /** `iic_init` after the pin set-up: SDA made an output, then SDA and SCL driven high. */
  const InitSeq: seq<Event> := [SdaOut, SetSda(true), SetScl(true)]

  /** `_iic_ack` (level low) and `_iic_nack` (level high): one master-driven clock. */
  function AckBitSeq(high: bool): seq<Event>
  {
    [SetScl(false), Delay(AckDelay), SdaOut, SetSda(high), Delay(AckDelay),
     SetScl(true), Delay(AckDelay), SetScl(false), Delay(AckDelay)]
  }

  /** One turn of the `_iic_send_byte` loop. */
  function BitCycle(high: bool): seq<Event>
  {
    [SetSda(high), Delay(BitDelay), SetScl(true), Delay(BitDelay), SetScl(false), Delay(BitDelay)]
  }

  function ClockOut(levels: seq<bool>): seq<Event>
  {
    if levels == [] then []
    else ClockOut(levels[..|levels| - 1]) + BitCycle(levels[|levels| - 1])
  }

  /** `_iic_send_byte(txd)`. */
  function SendByteSeq(txd: Byte): seq<Event>
  {
    [SdaOut, SetScl(false)] + ClockOut(TxBits(txd))
  }

  /** `_iic_wait_ack` up to the polling loop. */
  const WaitAckHead: seq<Event> :=
    [SdaIn, SetSda(true), Delay(AckDelay), SetScl(true), Delay(AckDelay)]

  /** `_iic_wait_ack` after a low read. */
  const WaitAckTail: seq<Event> := [SetScl(false), Delay(AckDelay)]

  /**
   * How many times `_iic_wait_ack` reads SDA, counting from the i-th read:
   * it stops at the first low level, or at the read that takes the
   * counter past the limit.
   */
  function Polls(peer: seq<bool>, i: nat): (n: nat)
    requires i <= AckPollLimit
    ensures i < n <= AckPollLimit + 1
    decreases AckPollLimit - i
  {
    if !Line(peer, i) || i == AckPollLimit then i + 1 else Polls(peer, i + 1)
  }

  /** The first n reads of SDA. */
  function Samples(peer: seq<bool>, n: nat): (s: seq<Event>)
    ensures |s| == n
  {
    if n == 0 then [] else Samples(peer, n - 1) + [Sample(Line(peer, n - 1))]
  }

  /** The line events of one helper call, what it reports, and the device script it leaves. */
  datatype AckRun = AckRun(events: seq<Event>, acked: bool, rest: seq<bool>)

  /** `_iic_wait_ack()`: `acked` is its return value 0. */
  function WaitAckRun(peer: seq<bool>): AckRun
  {
    var n := Polls(peer, 0);
    var acked := !Line(peer, n - 1);
    AckRun(WaitAckHead + Samples(peer, n) + (if acked then WaitAckTail else StopSeq),
           acked, Drop(peer, n))
  }

  /** One turn of the `_iic_read_byte` loop. */
  function ReadCycle(high: bool): seq<Event>
  {
    [SetScl(false), Delay(BitDelay), SetScl(true), Sample(high), Delay(BitDelay)]
  }

  function ClockIn(levels: seq<bool>): seq<Event>
  {
    if levels == [] then []
    else ClockIn(levels[..|levels| - 1]) + ReadCycle(levels[|levels| - 1])
  }

  /** The eight levels `_iic_read_byte` samples. */
  function ByteLevels(peer: seq<bool>): (ls: seq<bool>)
    ensures |ls| == 8
  {
    seq(8, i requires 0 <= i < 8 => Line(peer, i))
  }

  datatype ByteRun = ByteRun(events: seq<Event>, value: Byte, rest: seq<bool>)

  /** `_iic_read_byte(ack)`: NACK when `ack` is 0, ACK otherwise. */
  function ReadByteRun(ack: Byte, peer: seq<bool>): ByteRun
  {
    var levels := ByteLevels(peer);
    ByteRun([SdaIn] + ClockIn(levels) + AckBitSeq(ack == 0), Accumulate(levels), Drop(peer, 8))
  }

  // ---------------------------------------------------------------------------
  // What the monitor sees
  // ---------------------------------------------------------------------------

  /** No pulse whose level the master has read is pending. */
  predicate Settled(m: Monitor)
  {
    !(m.slot.Pulse? && m.slot.sampled)
  }

  /** One event off the front of a suffix of a trace. */
  lemma Unfold(m: Monitor, t: seq<Event>, k: nat)
    requires k < |t|
    ensures Symbols(m, t[k..]) == Emit(m, t[k]) + Symbols(Next(m, t[k]), t[k + 1..])
    ensures Run(m, t[k..]) == Run(Next(m, t[k]), t[k + 1..])
  {
    assert t[k..][0] == t[k];
    assert t[k..][1..] == t[k + 1..];
  }

  // The tails below start from a fully known monitor state and are
  // evaluated by the verifier; the delays are written as the numbers
  // ConditionDelay, BitDelay and AckDelay stand for.

  /** The rest of `_iic_start` after its falling SDA edge. */
  lemma StartRest()
    ensures Symbols(Monitor(true, false, true, NoPulse), [Delay(15), SetScl(false), Delay(15), SetSda(true), Delay(15)]) == []
    ensures Run(Monitor(true, false, true, NoPulse), [Delay(15), SetScl(false), Delay(15), SetSda(true), Delay(15)])
         == Monitor(false, true, true, NoPulse)
  {
  }

  /** The rest of `_iic_stop` after it has pulled SDA low, from SCL low and from SCL high. */
  lemma StopRest()
    ensures Symbols(Monitor(false, false, true, NoPulse), [Delay(15), SetScl(true), Delay(15), SetSda(true), Delay(15)]) == [StopCond]
    ensures Run(Monitor(false, false, true, NoPulse), [Delay(15), SetScl(true), Delay(15), SetSda(true), Delay(15)]) == Idle
    ensures Symbols(Monitor(true, false, true, NoPulse), [Delay(15), SetScl(true), Delay(15), SetSda(true), Delay(15)]) == [StopCond]
    ensures Run(Monitor(true, false, true, NoPulse), [Delay(15), SetScl(true), Delay(15), SetSda(true), Delay(15)]) == Idle
  {
  }

  /** The rest of the `_iic_wait_ack` head after it has released SDA. */
  lemma WaitAckRest()
    ensures Symbols(Monitor(false, true, false, NoPulse), [Delay(20), SetScl(true), Delay(20)]) == []
    ensures Run(Monitor(false, true, false, NoPulse), [Delay(20), SetScl(true), Delay(20)])
         == Monitor(true, true, false, Pulse(true, false, false))
  {
  }

  /** A master-driven clock pulse once SDA is set to h. */
  lemma PulseOut(h: bool, d: nat)
    ensures Symbols(Monitor(false, h, true, NoPulse), [Delay(d), SetScl(true), Delay(d), SetScl(false), Delay(d)]) == [Bit(h, true)]
    ensures Run(Monitor(false, h, true, NoPulse), [Delay(d), SetScl(true), Delay(d), SetScl(false), Delay(d)])
         == Monitor(false, h, true, NoPulse)
  {
    var t := [Delay(d), SetScl(true), Delay(d), SetScl(false), Delay(d)];
    var m0 := Monitor(false, h, true, NoPulse);
    var m2 := Monitor(true, h, true, Pulse(h, true, false));
    Unfold(m0, t, 0);
    Unfold(m0, t, 1);
    assert Next(m0, t[1]) == m2;
    Unfold(m2, t, 2);
    Unfold(m2, t, 3);
    assert Emit(m2, t[3]) == [Bit(h, true)];
    Unfold(m0, t, 4);
    assert t[5..] == [];
    assert t[0..] == t;
  }

  /** SCL falls: the open pulse, if any, becomes a bit. */
  lemma Fall(m: Monitor, d: nat)
    requires (m.scl ==> m.slot.Pulse?) && (!m.scl ==> m.slot == NoPulse)
    ensures Symbols(m, [SetScl(false), Delay(d)]) == if m.scl then [Bit(m.slot.level, m.slot.byMaster)] else []
    ensures Run(m, [SetScl(false), Delay(d)]) == m.(scl := false, slot := NoPulse)
  {
    var t := [SetScl(false), Delay(d)];
    Unfold(m, t, 0);
    Unfold(Next(m, t[0]), t, 1);
    assert t[2..] == [];
    assert t[0..] == t;
  }

  /** The master takes SDA and sets it to h while SCL is low: no condition. */
  lemma Drive(m: Monitor, h: bool)
    requires !m.scl && m.slot == NoPulse
    ensures Symbols(m, [SdaOut, SetSda(h)]) == []
    ensures Run(m, [SdaOut, SetSda(h)]) == m.(out := true, latch := h)
  {
    var t := [SdaOut, SetSda(h)];
    Unfold(m, t, 0);
    Unfold(Next(m, t[0]), t, 1);
    assert t[2..] == [];
    assert t[0..] == t;
  }

  /** SCL rises with SDA released and the master reads the level h. */
  lemma RiseAndSample(latch: bool, h: bool, d: nat)
    ensures Symbols(Monitor(false, latch, false, NoPulse), [SetScl(true), Sample(h), Delay(d)]) == []
    ensures Run(Monitor(false, latch, false, NoPulse), [SetScl(true), Sample(h), Delay(d)])
         == Monitor(true, latch, false, Pulse(h, false, true))
  {
    var t := [SetScl(true), Sample(h), Delay(d)];
    var m := Monitor(false, latch, false, NoPulse);
    var m1 := Monitor(true, latch, false, Pulse(true, false, false));
    Unfold(m, t, 0);
    assert Next(m, t[0]) == m1;
    Unfold(m1, t, 1);
    Unfold(Next(m1, t[1]), t, 2);
    assert t[3..] == [];
    assert t[0..] == t;
  }

  /** The first steps of `_iic_start`: SDA driven and SCL raised, nothing on the wire yet. */
  lemma StartRise(m: Monitor)
    requires m.latch && Settled(m)
    ensures Symbols(m, [SdaOut, SetScl(true), Delay(15)]) == []
    ensures var r := Run(m, [SdaOut, SetScl(true), Delay(15)]); r.scl && r.latch && r.out && Settled(r)
  {
    var t := [SdaOut, SetScl(true), Delay(15)];
    Unfold(m, t, 0);
    var m1 := Next(m, t[0]);
    Unfold(m1, t, 1);
    Unfold(Next(m1, t[1]), t, 2);
    assert t[3..] == [];
    assert t[0..] == t;
  }

  /** SDA falling under a high SCL: the START condition. */
  lemma StartFall(m: Monitor)
    requires m.scl && m.latch && m.out && Settled(m)
    ensures Symbols(m, [SetSda(false)]) == [StartCond]
    ensures Run(m, [SetSda(false)]) == Monitor(true, false, true, NoPulse)
  {
    Unfold(m, [SetSda(false)], 0);
    assert [SetSda(false)][1..] == [];
    assert [SetSda(false)][0..] == [SetSda(false)];
  }

  /**
   * `_iic_start` produces exactly one START condition, provided the SDA
   * latch is high when it raises SCL, and leaves SCL low, SDA driven high.
   */
  lemma StartSymbols(m: Monitor)
    requires m.latch && Settled(m)
    ensures Symbols(m, StartSeq) == [StartCond]
    ensures Run(m, StartSeq) == Monitor(false, true, true, NoPulse)
  {
    var a := [SdaOut, SetScl(true), Delay(15)];
    var b := [SetSda(false)];
    var c := [Delay(15), SetScl(false), Delay(15), SetSda(true), Delay(15)];
    assert StartSeq == a + b + c;
    StartRise(m);
    StartFall(Run(m, a));
    StartRest();
    SymbolsAppend(m, a, b);
    SymbolsAppend(m, a + b, c);
  }

  /** `_iic_stop` entered with SCL low produces exactly one STOP and leaves the bus idle. */
  lemma StopFromLow(m: Monitor)
    requires !m.scl && m.slot == NoPulse
    ensures Symbols(m, StopSeq) == [StopCond]
    ensures Run(m, StopSeq) == Idle
  {
    var a := [SdaOut, SetSda(false)];
    var c := [Delay(15), SetScl(true), Delay(15), SetSda(true), Delay(15)];
    assert StopSeq == a + c;
    Drive(m, false);
    StopRest();
    SymbolsAppend(m, a, c);
  }

  /** The first steps of `_iic_stop` with SCL high: SDA falls under a high SCL. */
  lemma StopHeadHigh(m: Monitor)
    requires m.scl && m.latch
    ensures Symbols(m, [SdaOut, SetSda(false)]) == Flush(m.slot) + [StartCond]
    ensures Run(m, [SdaOut, SetSda(false)]) == Monitor(true, false, true, NoPulse)
  {
    var t := [SdaOut, SetSda(false)];
    Unfold(m, t, 0);
    Unfold(Next(m, t[0]), t, 1);
    assert t[2..] == [];
    assert t[0..] == t;
  }

  /**
   * `_iic_stop` entered with SCL high and the SDA latch high first pulls SDA
   * low under a high SCL, which is itself a START condition, then STOP.
   */
  lemma StopFromHigh(m: Monitor)
    requires m.scl && m.latch
    ensures Symbols(m, StopSeq) == Flush(m.slot) + [StartCond, StopCond]
    ensures Run(m, StopSeq) == Idle
  {
    var a := [SdaOut, SetSda(false)];
    var c := [Delay(15), SetScl(true), Delay(15), SetSda(true), Delay(15)];
    assert StopSeq == a + c;
    StopHeadHigh(m);
    StopRest();
    SymbolsAppend(m, a, c);
  }

  /** One turn of the send loop clocks out one master-driven bit. */
  lemma BitCycleSymbols(m: Monitor, h: bool)
    requires !m.scl && m.out && m.slot == NoPulse
    ensures Symbols(m, BitCycle(h)) == [Bit(h, true)]
    ensures Run(m, BitCycle(h)) == m.(latch := h)
  {
    var t := BitCycle(h);
    Unfold(m, t, 0);
    assert Next(m, t[0]) == Monitor(false, h, true, NoPulse);
    assert t[1..] == [Delay(10), SetScl(true), Delay(10), SetScl(false), Delay(10)];
    PulseOut(h, 10);
    assert t[0..] == t;
  }

  lemma {:induction false} ClockOutSymbols(m: Monitor, levels: seq<bool>)
    requires !m.scl && m.out && m.slot == NoPulse
    ensures Symbols(m, ClockOut(levels)) == DataBits(levels, true)
    ensures Run(m, ClockOut(levels)) == if levels == [] then m else m.(latch := levels[|levels| - 1])
    decreases |levels|
  {
    if levels != [] {
      var init := levels[..|levels| - 1];
      var h := levels[|levels| - 1];
      ClockOutSymbols(m, init);
      SymbolsAppend(m, ClockOut(init), BitCycle(h));
      var mi := Run(m, ClockOut(init));
      BitCycleSymbols(mi, h);
      DataBitsLast(levels, true);
    }
  }

  /**
   * `_iic_send_byte(x)` puts exactly the eight bits of x on the wire, most
   * significant first, all driven by the master, and leaves SCL low.
   */
  lemma SendByteSymbols(m: Monitor, x: Byte)
    requires !m.scl && m.slot == NoPulse
    ensures Symbols(m, SendByteSeq(x)) == DataBits(TxBits(x), true)
    ensures Run(m, SendByteSeq(x)) == Monitor(false, TxBits(x)[7], true, NoPulse)
  {
    SendTraceSymbols(m, TxBits(x));
  }

  /** The events of `_iic_send_byte` for given levels to drive. */
  lemma SendTraceSymbols(m: Monitor, levels: seq<bool>)
    requires !m.scl && m.slot == NoPulse && |levels| == 8
    ensures Symbols(m, [SdaOut, SetScl(false)] + ClockOut(levels)) == DataBits(levels, true)
    ensures Run(m, [SdaOut, SetScl(false)] + ClockOut(levels)) == Monitor(false, levels[7], true, NoPulse)
  {
    var head: seq<Event> := [SdaOut, SetScl(false)];
    var m1 := m.(out := true);
    SymbolsAppend(m, head, ClockOut(levels));
    assert Symbols(m, head) == [] && Run(m, head) == m1 by {
      assert head == [SdaOut] + [SetScl(false)];
      SymbolsCons(m, SdaOut, [SetScl(false)]);
      assert [SetScl(false)] == [SetScl(false)] + [];
      SymbolsCons(m1, SetScl(false), []);
    }
    ClockOutSymbols(m1, levels);
  }

  lemma {:induction false} SamplesSymbols(m: Monitor, peer: seq<bool>, n: nat)
    requires !m.out && m.scl && m.slot.Pulse? && n >= 1
    ensures Symbols(m, Samples(peer, n)) == []
    ensures Run(m, Samples(peer, n)) == m.(slot := Pulse(Line(peer, n - 1), m.slot.byMaster, true))
  {
    var last: seq<Event> := [Sample(Line(peer, n - 1))];
    SymbolsAppend(m, Samples(peer, n - 1), last);
    if n > 1 {
      SamplesSymbols(m, peer, n - 1);
    }
    var mi := Run(m, Samples(peer, n - 1));
    assert mi.scl && !mi.out && mi.slot.Pulse? && mi.slot.byMaster == m.slot.byMaster;
    Unfold(mi, last, 0);
    assert last[1..] == [];
    assert last[0..] == last;
  }

  /**
   * What the monitor sees of `_iic_wait_ack`: on an acknowledge, one
   * device-driven low bit and SCL low again; on a timeout, the high
   * acknowledge bit, then the START and STOP that its `_iic_stop` produces,
   * leaving the bus idle.
   */
  lemma WaitAckSymbols(m: Monitor, peer: seq<bool>)
    requires !m.scl && m.slot == NoPulse
    ensures var w := WaitAckRun(peer);
      && (w.acked ==> Symbols(m, w.events) == [Bit(false, false)]
                      && Run(m, w.events) == Monitor(false, true, false, NoPulse))
      && (!w.acked ==> Symbols(m, w.events) == [Bit(true, false), StartCond, StopCond]
                       && Run(m, w.events) == Idle)
  {
    var w := WaitAckRun(peer);
    var n := Polls(peer, 0);
    var tail := if w.acked then WaitAckTail else StopSeq;
    assert w.events == WaitAckHead + Samples(peer, n) + tail;
    SymbolsAppend(m, WaitAckHead + Samples(peer, n), tail);
    SymbolsAppend(m, WaitAckHead, Samples(peer, n));
    WaitAckHeadSymbols(m);
    var mh := Run(m, WaitAckHead);
    assert mh == Monitor(true, true, false, Pulse(true, false, false));
    SamplesSymbols(mh, peer, n);
    var ms := Run(mh, Samples(peer, n));
    assert ms == Monitor(true, true, false, Pulse(!w.acked, false, true));
    if w.acked {
      WaitAckTailSymbols(ms);
    } else {
      StopFromHigh(ms);
    }
  }

  lemma WaitAckHeadSymbols(m: Monitor)
    requires !m.scl && m.slot == NoPulse
    ensures Symbols(m, WaitAckHead) == []
    ensures Run(m, WaitAckHead) == Monitor(true, true, false, Pulse(true, false, false))
  {
    var t := WaitAckHead;
    Unfold(m, t, 0);
    Unfold(Next(m, t[0]), t, 1);
    assert Next(Next(m, t[0]), t[1]) == Monitor(false, true, false, NoPulse);
    assert t[2..] == [Delay(20), SetScl(true), Delay(20)];
    WaitAckRest();
    assert t[0..] == t;
  }

  lemma WaitAckTailSymbols(m: Monitor)
    requires m.scl && m.slot.Pulse?
    ensures Symbols(m, WaitAckTail) == [Bit(m.slot.level, m.slot.byMaster)]
    ensures Run(m, WaitAckTail) == m.(scl := false, slot := NoPulse)
  {
    var t := WaitAckTail;
    Unfold(m, t, 0);
    Unfold(Next(m, t[0]), t, 1);
    assert t[2..] == [];
    assert t[0..] == t;
  }

  /** One turn of the receive loop. */
  lemma ReadCycleSymbols(m: Monitor, h: bool)
    requires !m.out && (m.scl ==> m.slot.Pulse?) && (!m.scl ==> m.slot == NoPulse)
    ensures Symbols(m, ReadCycle(h)) == if m.scl then [Bit(m.slot.level, m.slot.byMaster)] else []
    ensures Run(m, ReadCycle(h)) == m.(scl := true, slot := Pulse(h, false, true))
  {
    var a := [SetScl(false), Delay(10)];
    var b := [SetScl(true), Sample(h), Delay(10)];
    assert ReadCycle(h) == a + b;
    Fall(m, 10);
    RiseAndSample(m.latch, h, 10);
    SymbolsAppend(m, a, b);
  }

  /**
   * The receive loop: every level but the last becomes a device-driven bit;
   * the last one is still on the wire, SCL high.
   */
  lemma {:induction false} ClockInSymbols(m: Monitor, levels: seq<bool>)
    requires !m.scl && !m.out && m.slot == NoPulse && levels != []
    ensures Symbols(m, ClockIn(levels)) == DataBits(levels[..|levels| - 1], false)
    ensures Run(m, ClockIn(levels)) == m.(scl := true, slot := Pulse(levels[|levels| - 1], false, true))
    decreases |levels|
  {
    var init := levels[..|levels| - 1];
    var h := levels[|levels| - 1];
    SymbolsAppend(m, ClockIn(init), ReadCycle(h));
    if init == [] {
      ReadCycleSymbols(m, h);
    } else {
      ClockInSymbols(m, init);
      ReadCycleSymbols(Run(m, ClockIn(init)), h);
      DataBitsLast(init, false);
    }
  }

  /** `_iic_ack` / `_iic_nack` right after the receive loop. */
  lemma AckBitSymbols(m: Monitor, h: bool)
    requires m.scl && m.slot.Pulse?
    ensures Symbols(m, AckBitSeq(h)) == [Bit(m.slot.level, m.slot.byMaster), Bit(h, true)]
    ensures Run(m, AckBitSeq(h)) == Monitor(false, h, true, NoPulse)
  {
    var a := [SetScl(false), Delay(20)];
    var b := [SdaOut, SetSda(h)];
    var c := [Delay(20), SetScl(true), Delay(20), SetScl(false), Delay(20)];
    assert AckBitSeq(h) == a + b + c;
    Fall(m, 20);
    var m1 := Run(m, a);
    Drive(m1, h);
    assert Run(m1, b) == Monitor(false, h, true, NoPulse);
    PulseOut(h, 20);
    SymbolsAppend(m, a, b);
    SymbolsAppend(m, a + b, c);
  }

  /**
   * `_iic_read_byte(ack)` reads eight device-driven bits, then drives the
   * acknowledge bit itself: low (ACK) when ack is not 0, high (NACK) when it is.
   */
  lemma ReadByteSymbols(m: Monitor, ack: Byte, peer: seq<bool>)
    requires !m.scl && m.slot == NoPulse
    ensures var r := ReadByteRun(ack, peer);
      && Symbols(m, r.events) == DataBits(ByteLevels(peer), false) + [Bit(ack == 0, true)]
      && Run(m, r.events) == Monitor(false, ack == 0, true, NoPulse)
  {
    ReadTraceSymbols(m, ByteLevels(peer), ack == 0);
  }

  /** The events of `_iic_read_byte` for given sampled levels and acknowledge level. */
  lemma ReadTraceSymbols(m: Monitor, levels: seq<bool>, nack: bool)
    requires !m.scl && m.slot == NoPulse && |levels| == 8
    ensures Symbols(m, [SdaIn] + ClockIn(levels) + AckBitSeq(nack)) == DataBits(levels, false) + [Bit(nack, true)]
    ensures Run(m, [SdaIn] + ClockIn(levels) + AckBitSeq(nack)) == Monitor(false, nack, true, NoPulse)
  {
    var head: seq<Event> := [SdaIn];
    var body := ClockIn(levels);
    var tail := AckBitSeq(nack);
    SymbolsAppend(m, head + body, tail);
    SymbolsAppend(m, head, body);
    var m1 := m.(out := false);
    assert Symbols(m, head) == [] && Run(m, head) == m1 by {
      SymbolsCons(m, SdaIn, []);
      assert [SdaIn] + [] == head;
    }
    ClockInSymbols(m1, levels);
    var last := Bit(levels[7], false);
    AckBitSymbols(m1.(scl := true, slot := Pulse(levels[7], false, true)), nack);
    var d := DataBits(levels[..7], false);
    assert Symbols(m, head + body) == d;
    DataBitsLast(levels, false);
    assert d + [last, Bit(nack, true)] == (d + [last]) + [Bit(nack, true)];
  }

  // ---------------------------------------------------------------------------
  // The acknowledge poll
  // ---------------------------------------------------------------------------

  lemma {:induction false} PollsStop(peer: seq<bool>, i: nat)
    requires i <= AckPollLimit
    ensures var n := Polls(peer, i);
      && (forall j :: i <= j < n - 1 ==> Line(peer, j))
      && (!Line(peer, n - 1) || n == AckPollLimit + 1)
    decreases AckPollLimit - i
  {
    if Line(peer, i) && i < AckPollLimit {
      PollsStop(peer, i + 1);
    }
  }

  /**
   * `_iic_wait_ack` reports an acknowledge exactly when one of the first 501
   * reads of SDA is low; it then stops polling at the first low read. On a
   * timeout it has read SDA 501 times, all high.
   */
  lemma WaitAckOutcome(peer: seq<bool>)
    ensures var w := WaitAckRun(peer);
      && (w.acked <==> exists i :: 0 <= i <= AckPollLimit && !Line(peer, i))
      && (w.acked ==> forall j :: 0 <= j < Polls(peer, 0) - 1 ==> Line(peer, j))
      && (!w.acked ==> Polls(peer, 0) == AckPollLimit + 1)
  {
    PollsStop(peer, 0);
  }
}
