/**
 * What a bus observer reads from each whole transaction of the I2C master,
 * started from an idle bus (or any state with the SDA latch high and no
 * sampled pulse pending): the START, the bytes in order, the abort at the
 * first missing acknowledge, the repeated START of the combined read
 * format, the ACK/NACK answers while reading, and the final STOP.
 */
module Transactions {
  import opened Bits
  import opened Wire
  import opened Engine
  import opened Protocol

  // ---------------------------------------------------------------------------
  // Glue
  // ---------------------------------------------------------------------------

  /** Decoding composes over consecutive pieces of a line trace. */
  lemma Glue(m: Monitor, a: seq<Event>, fa: seq<Frame>, b: seq<Event>, fb: seq<Frame>)
    requires Parses(Symbols(m, a), fa) && Parses(Symbols(Run(m, a), b), fb)
    ensures Parses(Symbols(m, a + b), fa + fb)
    ensures Run(m, a + b) == Run(Run(m, a), b)
  {
    SymbolsAppend(m, a, b);
    ParsesAppend(Symbols(m, a), fa, Symbols(Run(m, a), b), fb);
  }

  lemma ParsesWhole(s: seq<Symbol>, fs: seq<Frame>)
    requires Parses(s, fs)
    ensures Parse(s) == fs
  {
    assert s + [] == s;
    assert fs + [] == fs;
    assert Parse(s + []) == fs + Parse([]);
  }

  /** The monitor right after `_iic_start`. */
  const AfterStart := Monitor(false, true, true, NoPulse)

  lemma StartDecodes(m: Monitor)
    requires m.latch && Settled(m)
    ensures Parses(Symbols(m, StartSeq), [Start]) && Run(m, StartSeq) == AfterStart
  {
    StartSymbols(m);
    StartParses();
  }

  lemma StopDecodes(m: Monitor)
    requires !m.scl && m.slot == NoPulse
    ensures Parses(Symbols(m, StopSeq), [Stop]) && Run(m, StopSeq) == Idle
  {
    StopFromLow(m);
    StopParses();
  }

  lemma NothingDecodes(m: Monitor)
    ensures Parses(Symbols(m, []), []) && Run(m, []) == m
  {
    ParsesEmpty();
  }

  // ---------------------------------------------------------------------------
  // Writes
  // ---------------------------------------------------------------------------

  /** START, the frames of the send phase, and STOP when every byte was acknowledged. */
  function WriteFrames(bytes: seq<Byte>, p: PhaseRun): seq<Frame>
    requires p.sent <= |bytes| && (!p.ok ==> 1 <= p.sent)
  {
    [Start] + PhaseFrames(bytes, p) + (if p.ok then [Stop] else [])
  }

  /**
   * A write transaction decodes as START, the phase, and STOP on success;
   * it returns 0 exactly when every byte was acknowledged, and leaves the
   * bus idle either way.
   */
  lemma WriteTransactionDecodes(m: Monitor, bytes: seq<Byte>, peer: seq<bool>)
    requires m.latch && Settled(m)
    ensures var o := WriteTransaction(bytes, peer);
      && Decode(m, o.events) == WriteFrames(bytes, Phase(bytes, peer))
      && Run(m, o.events) == Idle
      && (o.status == 0 <==> Phase(bytes, peer).ok)
  {
    var p := Phase(bytes, peer);
    var o := WriteTransaction(bytes, peer);
    StartDecodes(m);
    PhaseDecodes(AfterStart, bytes, peer);
    Glue(m, StartSeq, [Start], p.events, PhaseFrames(bytes, p));
    var a := StartSeq + p.events;
    if p.ok {
      StopDecodes(Run(m, a));
      Glue(m, a, [Start] + PhaseFrames(bytes, p), StopSeq, [Stop]);
    } else {
      assert o.events == a;
      assert WriteFrames(bytes, p) == [Start] + PhaseFrames(bytes, p);
    }
    ParsesWhole(Symbols(m, o.events), WriteFrames(bytes, p));
  }

  /** Every byte sent and acknowledged, in order, between one START and one STOP. */
  predicate CompletedWrite(d: seq<Frame>, bytes: seq<Byte>)
  {
    d == [Start] + AckedFrames(bytes) + [Stop]
  }

  /**
   * The bytes before some byte k sent and acknowledged, k sent and not
   * acknowledged, then the two START/STOP pairs and nothing else.
   */
  ghost predicate AbortedWrite(d: seq<Frame>, bytes: seq<Byte>)
  {
    exists k :: 0 <= k < |bytes| && d == [Start] + AckedFrames(bytes[..k]) + AbortFrames(bytes[k])
  }

  lemma WriteFramesShape(bytes: seq<Byte>, p: PhaseRun)
    requires p.sent <= |bytes| && (p.ok ==> p.sent == |bytes|) && (!p.ok ==> 1 <= p.sent)
    ensures p.ok ==> CompletedWrite(WriteFrames(bytes, p), bytes)
    ensures !p.ok ==> AbortedWrite(WriteFrames(bytes, p), bytes)
  {
    if p.ok {
      assert bytes[..p.sent] == bytes;
    } else {
      var k := p.sent - 1;
      assert WriteFrames(bytes, p) == [Start] + AckedFrames(bytes[..k]) + AbortFrames(bytes[k]);
    }
  }

  /**
   * The outcome of a write in terms of the bytes alone: it returns 0 when
   * every byte was acknowledged and 1 when it aborted on a byte.
   */
  lemma WriteOutcome(m: Monitor, bytes: seq<Byte>, peer: seq<bool>)
    requires m.latch && Settled(m)
    ensures var o := WriteTransaction(bytes, peer);
      && (o.status == 0 || o.status == 1)
      && (o.status == 0 ==> CompletedWrite(Decode(m, o.events), bytes))
      && (o.status == 1 ==> AbortedWrite(Decode(m, o.events), bytes))
      && Run(m, o.events) == Idle
  {
    WriteTransactionDecodes(m, bytes, peer);
    WriteFramesShape(bytes, Phase(bytes, peer));
  }

  /** Acknowledged bytes contain no START, STOP or NACK. */
  lemma {:induction false} AckedFramesPlain(bs: seq<Byte>)
    ensures Start !in AckedFrames(bs) && Stop !in AckedFrames(bs) && Nacked !in AckedFrames(bs)
    decreases |bs|
  {
    if bs != [] {
      AckedFramesPlain(bs[..|bs| - 1]);
    }
  }

  /**
   * Every write ends with a STOP; a successful one holds no other STOP and
   * no NACK, and a failed one holds a NACK.
   */
  lemma WriteStops(m: Monitor, bytes: seq<Byte>, peer: seq<bool>)
    requires m.latch && Settled(m)
    ensures var d := Decode(m, WriteTransaction(bytes, peer).events);
      && |d| > 0 && d[|d| - 1] == Stop
      && (WriteTransaction(bytes, peer).status == 0 <==> Nacked !in d)
      && (WriteTransaction(bytes, peer).status == 0 ==> Stop !in d[..|d| - 1])
  {
    WriteTransactionDecodes(m, bytes, peer);
    var p := Phase(bytes, peer);
    var d := Decode(m, WriteTransaction(bytes, peer).events);
    if p.ok {
      AckedFramesPlain(bytes[..p.sent]);
      assert d[..|d| - 1] == [Start] + AckedFrames(bytes[..p.sent]);
    } else {
      AckedFramesPlain(bytes[..p.sent - 1]);
      var pre := [Start] + AckedFrames(bytes[..p.sent - 1]);
      assert d == pre + AbortFrames(bytes[p.sent - 1]);
      assert d[|pre| + 1] == Nacked;
    }
  }

  /** The monitor for the pins out of reset: both latches low, SDA an input, as `Bus` is constructed. */
  const Reset := Monitor(false, false, false, NoPulse)

  /** `iic_init`'s events in front of a trace add no symbol of their own. */
  lemma InitPrefix(t: seq<Event>)
    ensures Symbols(Reset, InitSeq + t) == Symbols(Run(Reset, InitSeq), t)
    ensures Run(Reset, InitSeq + t) == Run(Run(Reset, InitSeq), t)
  {
    SymbolsAppend(Reset, InitSeq, t);
    InitSettles(Reset);
  }

  /**
   * `iic_init` leaves the monitor with both lines high, SDA driven and no
   * sampled bit pending, from any state with no sampled bit pending: the
   * state every transaction lemma below starts from. From the pins out of
   * reset (both latches low, SDA an input) it puts nothing on the wire.
   */
  lemma InitSettles(m: Monitor)
    requires Settled(m)
    ensures var r := Run(m, InitSeq);
      && r.scl && r.latch && r.out && Settled(r)
    ensures Decode(Reset, InitSeq) == []
  {
    SymbolsCons(m, SdaOut, [SetSda(true), SetScl(true)]);
    var m1 := Next(m, SdaOut);
    SymbolsCons(m1, SetSda(true), [SetScl(true)]);
    var m2 := Next(m1, SetSda(true));
    SymbolsCons(m2, SetScl(true), []);
    var z := Reset;
    SymbolsCons(z, SdaOut, [SetSda(true), SetScl(true)]);
    SymbolsCons(Next(z, SdaOut), SetSda(true), [SetScl(true)]);
    SymbolsCons(Next(Next(z, SdaOut), SetSda(true)), SetScl(true), []);
  }

  /** `iic_write_cmd` puts the device address, then the data bytes, on the wire. */
  lemma WriteCmdOutcome(m: Monitor, addr: Byte, data: seq<Byte>, peer: seq<bool>)
    requires m.latch && Settled(m)
    ensures var o := WriteCmdRun(addr, data, peer);
      && (o.status == 0 || o.status == 1)
      && (o.status == 0 ==> CompletedWrite(Decode(m, o.events), [addr] + data))
      && (o.status == 1 ==> AbortedWrite(Decode(m, o.events), [addr] + data))
      && Run(m, o.events) == Idle
  {
    WriteOutcome(m, [addr] + data, peer);
  }

  /** `iic_write` puts the device address, the register, then the data bytes, on the wire. */
  lemma WriteRegisterOutcome(m: Monitor, addr: Byte, reg: Byte, data: seq<Byte>, peer: seq<bool>)
    requires m.latch && Settled(m)
    ensures var o := WriteRun(addr, reg, data, peer);
      && (o.status == 0 || o.status == 1)
      && (o.status == 0 ==> CompletedWrite(Decode(m, o.events), [addr, reg] + data))
      && (o.status == 1 ==> AbortedWrite(Decode(m, o.events), [addr, reg] + data))
      && Run(m, o.events) == Idle
  {
    WriteOutcome(m, [addr, reg] + data, peer);
  }

  /**
   * `iic_write_address16` puts the device address, the register's high
   * byte then its low byte, then the data bytes, on the wire.
   */
  lemma WriteAddress16Outcome(m: Monitor, addr: Byte, reg: Word, data: seq<Byte>, peer: seq<bool>)
    requires m.latch && Settled(m)
    ensures var o := WriteAddress16Run(addr, reg, data, peer);
      var bytes := [addr, HighByte(reg), LowByte(reg)] + data;
      && (o.status == 0 || o.status == 1)
      && (o.status == 0 ==> CompletedWrite(Decode(m, o.events), bytes))
      && (o.status == 1 ==> AbortedWrite(Decode(m, o.events), bytes))
      && Run(m, o.events) == Idle
  {
    WriteOutcome(m, [addr, HighByte(reg), LowByte(reg)] + data, peer);
  }

  // ---------------------------------------------------------------------------
  // Reads
  // ---------------------------------------------------------------------------

  /** The frames of a one-byte send phase. */
  lemma SinglePhaseFrames(b: Byte, p: PhaseRun)
    requires p.sent <= 1 && (p.ok ==> p.sent == 1) && (!p.ok ==> 1 <= p.sent)
    ensures PhaseFrames([b], p) == if p.ok then [Sent(b), Acked] else AbortFrames(b)
  {
    assert [b][..0] == [] && [b][..1] == [b];
    assert AckedFrames([b]) == AckedFrames([]) + [Sent(b), Acked];
  }

  /** The read address phase after a START: one byte, acknowledged or not. */
  lemma AddressPhaseDecodes(readAddr: Byte, peer: seq<bool>)
    ensures var p := Phase([readAddr], peer);
      && Parses(Symbols(AfterStart, p.events), if p.ok then [Sent(readAddr), Acked] else AbortFrames(readAddr))
      && Run(AfterStart, p.events) == (if p.ok then AfterAck else Idle)
  {
    PhaseDecodes(AfterStart, [readAddr], peer);
    SinglePhaseFrames(readAddr, Phase([readAddr], peer));
  }

  /** The receive loop and STOP after the read address was acknowledged. */
  lemma ReceiveTailDecodes(m: Monitor, b: seq<Event>, fb: seq<Frame>, len: nat, peer: seq<bool>)
    requires Parses(Symbols(m, b), fb) && Run(m, b) == AfterAck
    ensures var r := Receive(len, len, peer);
      && Parses(Symbols(m, b + r.events + StopSeq), fb + ReceivedFrames(len, r.data) + [Stop])
      && Run(m, b + r.events + StopSeq) == Idle
  {
    var r := Receive(len, len, peer);
    ReceiveDecodes(AfterAck, len, len, peer);
    Glue(m, b, fb, r.events, ReceivedFrames(len, r.data));
    var c := b + r.events;
    StopDecodes(Run(m, c));
    Glue(m, c, fb + ReceivedFrames(len, r.data), StopSeq, [Stop]);
  }

  /**
   * START, the read address, then on its acknowledge the receive loop and
   * STOP, after any prefix that leaves SDA high.
   */
  lemma ReadFromDecodes(m: Monitor, prefix: seq<Event>, fpre: seq<Frame>, readAddr: Byte, len: nat, peer: seq<bool>)
    requires Parses(Symbols(m, prefix), fpre) && Run(m, prefix).latch && Settled(Run(m, prefix))
    ensures var o := ReadFrom(prefix, readAddr, len, peer);
      var ok := Phase([readAddr], peer).ok;
      && (ok ==> Parses(Symbols(m, o.events), fpre + [Start] + [Sent(readAddr), Acked] + ReceivedFrames(len, o.data) + [Stop]))
      && (!ok ==> Parses(Symbols(m, o.events), fpre + [Start] + AbortFrames(readAddr)))
      && Run(m, o.events) == Idle
      && (o.status == 0 <==> ok)
      && (ok ==> |o.data| == len)
      && (!ok ==> o.data == [])
  {
    var p := Phase([readAddr], peer);
    StartDecodes(Run(m, prefix));
    Glue(m, prefix, fpre, StartSeq, [Start]);
    AddressPhaseDecodes(readAddr, peer);
    var fp: seq<Frame> := if p.ok then [Sent(readAddr), Acked] else AbortFrames(readAddr);
    Glue(m, prefix + StartSeq, fpre + [Start], p.events, fp);
    if p.ok {
      ReceiveTailDecodes(m, prefix + StartSeq + p.events, fpre + [Start] + fp, len, p.rest);
    }
  }

  /**
   * A combined read: START, the write address and register bytes, then a
   * repeated START and the read address, then the bytes read and STOP; it
   * aborts at the first missing acknowledge and leaves the bus idle either way.
   */
  lemma AddressedReadDecodes(m: Monitor, header: seq<Byte>, readAddr: Byte, len: nat, peer: seq<bool>)
    requires m.latch && Settled(m)
    ensures var o := AddressedRead(header, readAddr, len, peer);
      var p := Phase(header, peer);
      var q := Phase([readAddr], p.rest);
      var d := Decode(m, o.events);
      && (!p.ok ==> d == [Start] + PhaseFrames(header, p))
      && (p.ok && q.ok ==>
            d == [Start] + PhaseFrames(header, p) + [Start] + [Sent(readAddr), Acked] + ReceivedFrames(len, o.data) + [Stop])
      && (p.ok && !q.ok ==> d == [Start] + PhaseFrames(header, p) + [Start] + AbortFrames(readAddr))
      && Run(m, o.events) == Idle
      && (o.status == 0 <==> p.ok && q.ok)
      && (o.status == 0 ==> |o.data| == len)
      && (o.status != 0 ==> o.data == [])
  {
    var o := AddressedRead(header, readAddr, len, peer);
    var p := Phase(header, peer);
    var f := [Start] + PhaseFrames(header, p);
    StartDecodes(m);
    PhaseDecodes(AfterStart, header, peer);
    Glue(m, StartSeq, [Start], p.events, PhaseFrames(header, p));
    if p.ok {
      var q := Phase([readAddr], p.rest);
      ReadFromDecodes(m, StartSeq + p.events, f, readAddr, len, p.rest);
      if q.ok {
        ParsesWhole(Symbols(m, o.events), f + [Start] + [Sent(readAddr), Acked] + ReceivedFrames(len, o.data) + [Stop]);
      } else {
        ParsesWhole(Symbols(m, o.events), f + [Start] + AbortFrames(readAddr));
      }
    } else {
      ParsesWhole(Symbols(m, o.events), f);
    }
  }

  /**
   * Every byte of the header acknowledged, a repeated START, the read
   * address acknowledged, then the len bytes read, each answered with ACK
   * but the last, which gets NACK, and one STOP.
   */
  predicate CompletedRead(d: seq<Frame>, header: seq<Byte>, readAddr: Byte, len: nat, data: seq<Byte>)
  {
    && |data| == len
    && d == [Start] + AckedFrames(header) + [Start] + [Sent(readAddr), Acked] + ReceivedFrames(len, data) + [Stop]
  }

  /** The header aborted on some byte, or the read address after a repeated START was not acknowledged. */
  ghost predicate AbortedRead(d: seq<Frame>, header: seq<Byte>, readAddr: Byte)
  {
    || AbortedWrite(d, header)
    || d == [Start] + AckedFrames(header) + [Start] + AbortFrames(readAddr)
  }

  lemma ReadOutcome(m: Monitor, header: seq<Byte>, readAddr: Byte, len: nat, peer: seq<bool>)
    requires m.latch && Settled(m)
    ensures var o := AddressedRead(header, readAddr, len, peer);
      && (o.status == 0 || o.status == 1)
      && (o.status == 0 ==> CompletedRead(Decode(m, o.events), header, readAddr, len, o.data))
      && (o.status == 1 ==> o.data == [] && AbortedRead(Decode(m, o.events), header, readAddr))
      && Run(m, o.events) == Idle
  {
    var p := Phase(header, peer);
    AddressedReadDecodes(m, header, readAddr, len, peer);
    if p.ok {
      assert header[..p.sent] == header;
    } else {
      WriteFramesShape(header, p);
      assert WriteFrames(header, p) == [Start] + PhaseFrames(header, p);
    }
  }

  /**
   * `iic_read`: the device address and register, then a repeated START,
   * the read address `addr + 1`, and len bytes.
   */
  lemma ReadRegisterOutcome(m: Monitor, addr: Byte, reg: Byte, len: nat, peer: seq<bool>)
    requires m.latch && Settled(m)
    ensures var o := ReadRun(addr, reg, len, peer);
      && (o.status == 0 || o.status == 1)
      && (o.status == 0 ==> CompletedRead(Decode(m, o.events), [addr, reg], ReadAddress(addr), len, o.data))
      && (o.status == 1 ==> o.data == [] && AbortedRead(Decode(m, o.events), [addr, reg], ReadAddress(addr)))
      && Run(m, o.events) == Idle
  {
    ReadOutcome(m, [addr, reg], ReadAddress(addr), len, peer);
  }

  /**
   * `iic_read_address16`: the device address, the register's high byte then
   * low byte, then a repeated START, the read address and len bytes.
   */
  lemma ReadAddress16Outcome(m: Monitor, addr: Byte, reg: Word, len: nat, peer: seq<bool>)
    requires m.latch && Settled(m)
    ensures var o := ReadAddress16Run(addr, reg, len, peer);
      var header := [addr, HighByte(reg), LowByte(reg)];
      && (o.status == 0 || o.status == 1)
      && (o.status == 0 ==> CompletedRead(Decode(m, o.events), header, ReadAddress(addr), len, o.data))
      && (o.status == 1 ==> o.data == [] && AbortedRead(Decode(m, o.events), header, ReadAddress(addr)))
      && Run(m, o.events) == Idle
  {
    ReadOutcome(m, [addr, HighByte(reg), LowByte(reg)], ReadAddress(addr), len, peer);
  }

  /** `iic_read_cmd`: one START, the read address, then len bytes; no register and no repeated START. */
  lemma ReadCmdOutcome(m: Monitor, addr: Byte, len: nat, peer: seq<bool>)
    requires m.latch && Settled(m)
    ensures var o := ReadCmdRun(addr, len, peer);
      var d := Decode(m, o.events);
      && (o.status == 0 || o.status == 1)
      && (o.status == 0 ==> |o.data| == len)
      && (o.status == 0 ==> d == [Start] + [Sent(ReadAddress(addr)), Acked] + ReceivedFrames(len, o.data) + [Stop])
      && (o.status == 1 ==> o.data == [] && d == [Start] + AbortFrames(ReadAddress(addr)))
      && Run(m, o.events) == Idle
  {
    var o := ReadCmdRun(addr, len, peer);
    var ra := ReadAddress(addr);
    NothingDecodes(m);
    ReadFromDecodes(m, [], [], ra, len, peer);
    assert [] + [Start] == [Start];
    if o.status == 0 {
      ParsesWhole(Symbols(m, o.events), [Start] + [Sent(ra), Acked] + ReceivedFrames(len, o.data) + [Stop]);
    } else {
      ParsesWhole(Symbols(m, o.events), [Start] + AbortFrames(ra));
    }
  }

  // ---------------------------------------------------------------------------
  // From reset: iic_init, then one transaction
  // ---------------------------------------------------------------------------

  /**
   * The whole trace of a `Bus` from its construction through `iic_init` and
   * one write of `bytes` decodes, from the pins out of reset, to the frames
   * of a completed or an aborted write, and leaves the bus idle.
   */
  lemma WriteAfterInit(bytes: seq<Byte>, peer: seq<bool>)
    ensures var o := WriteTransaction(bytes, peer);
      var d := Decode(Reset, InitSeq + o.events);
      && (o.status == 0 ==> CompletedWrite(d, bytes))
      && (o.status == 1 ==> AbortedWrite(d, bytes))
      && Run(Reset, InitSeq + o.events) == Idle
  {
    var o := WriteTransaction(bytes, peer);
    InitSettles(Reset);
    InitPrefix(o.events);
    WriteOutcome(Run(Reset, InitSeq), bytes, peer);
  }

  /**
   * The same for one read through a header: from the pins out of reset,
   * `iic_init` and the read decode to a completed read with the bytes
   * returned, or to an aborted one with none.
   */
  lemma ReadAfterInit(header: seq<Byte>, readAddr: Byte, len: nat, peer: seq<bool>)
    ensures var o := AddressedRead(header, readAddr, len, peer);
      var d := Decode(Reset, InitSeq + o.events);
      && (o.status == 0 ==> CompletedRead(d, header, readAddr, len, o.data))
      && (o.status == 1 ==> o.data == [] && AbortedRead(d, header, readAddr))
      && Run(Reset, InitSeq + o.events) == Idle
  {
    var o := AddressedRead(header, readAddr, len, peer);
    InitSettles(Reset);
    InitPrefix(o.events);
    ReadOutcome(Run(Reset, InitSeq), header, readAddr, len, peer);
  }
}
