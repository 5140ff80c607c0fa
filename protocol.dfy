/**
 * The register/transaction protocols of the software I2C master
 * (`iic_write_cmd`, `iic_write`, `iic_write_address16`, `iic_read`,
 * `iic_read_address16`, `iic_read_cmd`) as pure runs over the device
 * script, and what a bus observer decodes from each of them: the bytes on
 * the wire and their order, the abort at the first missing acknowledge,
 * the STOP at every exit, the combined write-then-read format with a
 * repeated START (section 3.1.10 of UM10204) and the ACK/NACK answers of
 * the master while it reads.
 */
module Protocol {
  import opened Bits
  import opened Wire
  import opened Engine

  // ---------------------------------------------------------------------------
  // Runs
  // ---------------------------------------------------------------------------

  /**
   * A run of the pattern `_iic_send_byte(b); if (_iic_wait_ack()) { _iic_stop(); return 1; }`
   * over a list of bytes: the events, how many bytes went on the wire, whether
   * all of them were acknowledged, and the device script left.
   */
  datatype PhaseRun = PhaseRun(events: seq<Event>, sent: nat, ok: bool, rest: seq<bool>)

  function Phase(bytes: seq<Byte>, peer: seq<bool>): (p: PhaseRun)
    ensures p.sent <= |bytes|
    ensures p.ok ==> p.sent == |bytes|
    ensures !p.ok ==> 1 <= p.sent
    decreases |bytes|
  {
    if bytes == [] then PhaseRun([], 0, true, peer)
    else
      var p := Phase(bytes[..|bytes| - 1], peer);
      if !p.ok then p
      else
        var w := WaitAckRun(p.rest);
        PhaseRun(p.events + StepEvents(bytes[|bytes| - 1], w), p.sent + 1, w.acked, w.rest)
  }

  /** The first i turns of the `while (len)` receive loop, for an initial length len. */
  datatype RxRun = RxRun(events: seq<Event>, data: seq<Byte>, rest: seq<bool>)

  /** The `ack` argument of the receive loop's i-th turn: 0 (NACK) only when one byte is left. */
  function AckArg(len: nat, i: nat): Byte
  {
    if len - i == 1 then 0 else 1
  }

  function Receive(len: nat, i: nat, peer: seq<bool>): (r: RxRun)
    requires i <= len
    ensures |r.data| == i
  {
    if i == 0 then RxRun([], [], peer)
    else
      var r := Receive(len, i - 1, peer);
      var b := ReadByteRun(AckArg(len, i - 1), r.rest);
      RxRun(r.events + b.events, r.data + [b.value], b.rest)
  }

  /** A whole transaction: its events, the returned status, the bytes read, the script left. */
  datatype Outcome = Outcome(events: seq<Event>, status: Byte, data: seq<Byte>, rest: seq<bool>)

  /** START, the bytes with abort on the first missing acknowledge, STOP. */
  function WriteTransaction(bytes: seq<Byte>, peer: seq<bool>): Outcome
  {
    var p := Phase(bytes, peer);
    Outcome(StartSeq + p.events + (if p.ok then StopSeq else []), if p.ok then 0 else 1, [], p.rest)
  }

  /** START, the read address, then len received bytes and STOP; `prefix` is what came before. */
  function ReadFrom(prefix: seq<Event>, readAddr: Byte, len: nat, peer: seq<bool>): Outcome
  {
    var p := Phase([readAddr], peer);
    if !p.ok then Outcome(prefix + StartSeq + p.events, 1, [], p.rest)
    else
      var r := Receive(len, len, p.rest);
      Outcome(prefix + StartSeq + p.events + r.events + StopSeq, 0, r.data, r.rest)
  }

  /** START, the write address and register bytes, then a repeated START and ReadFrom. */
  function AddressedRead(header: seq<Byte>, readAddr: Byte, len: nat, peer: seq<bool>): Outcome
  {
    var p := Phase(header, peer);
    if !p.ok then Outcome(StartSeq + p.events, 1, [], p.rest)
    else ReadFrom(StartSeq + p.events, readAddr, len, p.rest)
  }

  function WriteCmdRun(addr: Byte, data: seq<Byte>, peer: seq<bool>): Outcome
  {
    WriteTransaction([addr] + data, peer)
  }

  function WriteRun(addr: Byte, reg: Byte, data: seq<Byte>, peer: seq<bool>): Outcome
  {
    WriteTransaction([addr, reg] + data, peer)
  }

  function WriteAddress16Run(addr: Byte, reg: Word, data: seq<Byte>, peer: seq<bool>): Outcome
  {
    WriteTransaction([addr, HighByte(reg), LowByte(reg)] + data, peer)
  }

  function ReadRun(addr: Byte, reg: Byte, len: nat, peer: seq<bool>): Outcome
  {
    AddressedRead([addr, reg], ReadAddress(addr), len, peer)
  }

  function ReadAddress16Run(addr: Byte, reg: Word, len: nat, peer: seq<bool>): Outcome
  {
    AddressedRead([addr, HighByte(reg), LowByte(reg)], ReadAddress(addr), len, peer)
  }

  function ReadCmdRun(addr: Byte, len: nat, peer: seq<bool>): Outcome
  {
    ReadFrom([], ReadAddress(addr), len, peer)
  }

  // ---------------------------------------------------------------------------
  // Expected frames
  // ---------------------------------------------------------------------------

  /** Each byte sent by the master and acknowledged by the device, in order. */
  function AckedFrames(bs: seq<Byte>): (fs: seq<Frame>)
    ensures |fs| == 2 * |bs|
  {
    if bs == [] then [] else AckedFrames(bs[..|bs| - 1]) + [Sent(bs[|bs| - 1]), Acked]
  }

  /**
   * A byte the device does not acknowledge, then the START and STOP of the
   * `_iic_stop` inside `_iic_wait_ack`, then those of the caller's `_iic_stop`.
   */
  function AbortFrames(b: Byte): seq<Frame>
  {
    [Sent(b), Nacked, Start, Stop, Start, Stop]
  }

  function PhaseFrames(bytes: seq<Byte>, p: PhaseRun): seq<Frame>
    requires p.sent <= |bytes| && (!p.ok ==> 1 <= p.sent)
  {
    if p.ok then AckedFrames(bytes[..p.sent])
    else AckedFrames(bytes[..p.sent - 1]) + AbortFrames(bytes[p.sent - 1])
  }

  /** Each byte read, answered with ACK except the last of len, which gets NACK. */
  function ReceivedFrames(len: nat, data: seq<Byte>): (fs: seq<Frame>)
    ensures |fs| == |data|
  {
    seq(|data|, i requires 0 <= i < |data| => Received(data[i], i != len - 1))
  }

  // ---------------------------------------------------------------------------
  // What a bus observer decodes
  // ---------------------------------------------------------------------------

  /** The monitor state between two bytes of a phase: SCL low after an acknowledge. */
  const AfterAck := Monitor(false, true, false, NoPulse)

  /** One step of a phase: send b, wait for its acknowledge, and STOP again on a timeout. */
  function StepEvents(b: Byte, w: AckRun): seq<Event>
  {
    SendByteSeq(b) + w.events + (if w.acked then [] else StopSeq)
  }

  /** The wire symbols of a step: the byte, the acknowledge bit, and on a timeout two START/STOP pairs. */
  function StepSymbolsOf(b: Byte, acked: bool): seq<Symbol>
  {
    DataBits(TxBits(b), true)
      + (if acked then [Bit(false, false)] else [Bit(true, false), StartCond, StopCond, StartCond, StopCond])
  }

  /** The wire symbols of a send phase, step by step as the phase runs. */
  function PhaseSymbolsOf(bytes: seq<Byte>, peer: seq<bool>): seq<Symbol>
    decreases |bytes|
  {
    if bytes == [] then []
    else
      var q := Phase(bytes[..|bytes| - 1], peer);
      if !q.ok then PhaseSymbolsOf(bytes[..|bytes| - 1], peer)
      else PhaseSymbolsOf(bytes[..|bytes| - 1], peer) + StepSymbolsOf(bytes[|bytes| - 1], WaitAckRun(q.rest).acked)
  }

  lemma StepSymbols(m: Monitor, b: Byte, peer: seq<bool>)
    requires !m.scl && m.slot == NoPulse
    ensures Symbols(m, StepEvents(b, WaitAckRun(peer))) == StepSymbolsOf(b, WaitAckRun(peer).acked)
    ensures Run(m, StepEvents(b, WaitAckRun(peer))) == if WaitAckRun(peer).acked then AfterAck else Idle
  {
    SendByteSymbols(m, b);
    WaitAckSymbols(Monitor(false, TxBits(b)[7], true, NoPulse), peer);
    StepCore(m, SendByteSeq(b), b, WaitAckRun(peer));
  }

  /** StepSymbols over the facts about its two parts, whatever their events are. */
  lemma StepCore(m: Monitor, tx: seq<Event>, b: Byte, w: AckRun)
    requires Symbols(m, tx) == DataBits(TxBits(b), true)
    requires Run(m, tx) == Monitor(false, TxBits(b)[7], true, NoPulse)
    requires var m1 := Monitor(false, TxBits(b)[7], true, NoPulse);
      && (w.acked ==> Symbols(m1, w.events) == [Bit(false, false)] && Run(m1, w.events) == AfterAck)
      && (!w.acked ==> Symbols(m1, w.events) == [Bit(true, false), StartCond, StopCond] && Run(m1, w.events) == Idle)
    ensures Symbols(m, tx + w.events + (if w.acked then [] else StopSeq)) == StepSymbolsOf(b, w.acked)
    ensures Run(m, tx + w.events + (if w.acked then [] else StopSeq)) == if w.acked then AfterAck else Idle
  {
    SymbolsAppend(m, tx, w.events);
    var stop: seq<Event> := if w.acked then [] else StopSeq;
    SymbolsAppend(m, tx + w.events, stop);
    if !w.acked {
      StopFromHigh(Idle);
    }
  }

  /** A step after any events that leave SCL low with no pulse open. */
  lemma StepAfter(m: Monitor, qe: seq<Event>, b: Byte, peer: seq<bool>)
    requires !Run(m, qe).scl && Run(m, qe).slot == NoPulse
    ensures Symbols(m, qe + StepEvents(b, WaitAckRun(peer)))
         == Symbols(m, qe) + StepSymbolsOf(b, WaitAckRun(peer).acked)
    ensures Run(m, qe + StepEvents(b, WaitAckRun(peer))) == if WaitAckRun(peer).acked then AfterAck else Idle
  {
    SymbolsAppend(m, qe, StepEvents(b, WaitAckRun(peer)));
    StepSymbols(Run(m, qe), b, peer);
  }

  /** The line events of a send phase produce its symbols and leave SCL low, or the bus idle on an abort. */
  lemma {:induction false} PhaseSymbols(m: Monitor, bytes: seq<Byte>, peer: seq<bool>)
    requires !m.scl && m.slot == NoPulse
    ensures var p := Phase(bytes, peer);
      && Symbols(m, p.events) == PhaseSymbolsOf(bytes, peer)
      && Run(m, p.events) == (if !p.ok then Idle else if bytes == [] then m else AfterAck)
    decreases |bytes|
  {
    if bytes != [] {
      var init := bytes[..|bytes| - 1];
      var q := Phase(init, peer);
      PhaseSymbols(m, init, peer);
      if q.ok {
        StepAfter(m, q.events, bytes[|bytes| - 1], q.rest);
      }
    }
  }

  lemma StepParses(b: Byte, acked: bool)
    ensures Parses(StepSymbolsOf(b, acked), if acked then [Sent(b), Acked] else AbortFrames(b))
  {
    var tx := DataBits(TxBits(b), true);
    SentParses(b, !acked);
    if !acked {
      var u := tx + [Bit(true, false)];
      StartParses();
      StopParses();
      ParsesAppend([StartCond], [Start], [StopCond], [Stop]);
      ParsesAppend([StartCond] + [StopCond], [Start] + [Stop], [StartCond] + [StopCond], [Start] + [Stop]);
      var pairs := [StartCond] + [StopCond] + ([StartCond] + [StopCond]);
      ParsesAppend(u, [Sent(b), Nacked], pairs, [Start] + [Stop] + ([Start] + [Stop]));
      assert StepSymbolsOf(b, acked) == u + pairs;
      assert AbortFrames(b) == [Sent(b), Nacked] + ([Start] + [Stop] + ([Start] + [Stop]));
    }
  }

  /** Once a phase has aborted, later bytes change nothing in its frames. */
  lemma PhaseFramesStopped(bytes: seq<Byte>, q: PhaseRun)
    requires bytes != [] && !q.ok && 1 <= q.sent <= |bytes| - 1
    ensures PhaseFrames(bytes, q) == PhaseFrames(bytes[..|bytes| - 1], q)
  {
    var init := bytes[..|bytes| - 1];
    assert bytes[..q.sent - 1] == init[..q.sent - 1];
    assert bytes[q.sent - 1] == init[q.sent - 1];
  }

  /** The frames of a phase after one more step. */
  lemma PhaseFramesStep(bytes: seq<Byte>, q: PhaseRun, acked: bool)
    requires bytes != [] && q.ok && q.sent == |bytes| - 1
    ensures PhaseFrames(bytes, PhaseRun([], q.sent + 1, acked, []))
         == PhaseFrames(bytes[..|bytes| - 1], q) + (if acked then [Sent(bytes[|bytes| - 1]), Acked] else AbortFrames(bytes[|bytes| - 1]))
  {
    var init := bytes[..|bytes| - 1];
    assert init[..q.sent] == init;
    assert bytes[..|bytes|] == bytes;
  }

  /** The symbols of a send phase parse as its frames, whatever follows. */
  lemma {:induction false} PhaseParses(bytes: seq<Byte>, peer: seq<bool>)
    ensures Parses(PhaseSymbolsOf(bytes, peer), PhaseFrames(bytes, Phase(bytes, peer)))
    decreases |bytes|
  {
    if bytes == [] {
      assert bytes[..0] == [];
      ParsesEmpty();
    } else {
      var init := bytes[..|bytes| - 1];
      var b := bytes[|bytes| - 1];
      var q := Phase(init, peer);
      PhaseParses(init, peer);
      if !q.ok {
        PhaseFramesStopped(bytes, q);
      } else {
        var w := WaitAckRun(q.rest);
        StepParses(b, w.acked);
        ParsesAppend(PhaseSymbolsOf(init, peer), PhaseFrames(init, q),
                     StepSymbolsOf(b, w.acked), if w.acked then [Sent(b), Acked] else AbortFrames(b));
        PhaseFramesStep(bytes, q, w.acked);
        assert PhaseFrames(bytes, Phase(bytes, peer)) == PhaseFrames(bytes, PhaseRun([], q.sent + 1, w.acked, []));
      }
    }
  }

  /**
   * A send phase, decoded: the bytes acknowledged so far, and on a missing
   * acknowledge the failing byte and the two START/STOP pairs, after which
   * nothing else is sent; the phase leaves the bus idle when it aborts.
   */
  lemma PhaseDecodes(m: Monitor, bytes: seq<Byte>, peer: seq<bool>)
    requires !m.scl && m.slot == NoPulse
    ensures var p := Phase(bytes, peer);
      && Parses(Symbols(m, p.events), PhaseFrames(bytes, p))
      && Run(m, p.events) == (if !p.ok then Idle else if bytes == [] then m else AfterAck)
  {
    PhaseSymbols(m, bytes, peer);
    PhaseParses(bytes, peer);
  }

  /** The monitor after some turns of the receive loop. */
  function AfterReceive(m: Monitor, len: nat, i: nat): Monitor
    requires i <= len
  {
    if i == 0 then m else Monitor(false, AckArg(len, i - 1) == 0, true, NoPulse)
  }

  /** The wire symbols of one received byte and the master's answer. */
  function ByteSymbolsOf(peer: seq<bool>, ack: Byte): seq<Symbol>
  {
    DataBits(ByteLevels(peer), false) + [Bit(ack == 0, true)]
  }

  /** The wire symbols of the first i turns of the receive loop. */
  function RxSymbolsOf(len: nat, i: nat, peer: seq<bool>): seq<Symbol>
    requires i <= len
  {
    if i == 0 then []
    else RxSymbolsOf(len, i - 1, peer) + ByteSymbolsOf(Receive(len, i - 1, peer).rest, AckArg(len, i - 1))
  }

  /** A received byte after any events that leave SCL low with no pulse open. */
  lemma ReadAfter(m: Monitor, qe: seq<Event>, ack: Byte, peer: seq<bool>)
    requires !Run(m, qe).scl && Run(m, qe).slot == NoPulse
    ensures Symbols(m, qe + ReadByteRun(ack, peer).events) == Symbols(m, qe) + ByteSymbolsOf(peer, ack)
    ensures Run(m, qe + ReadByteRun(ack, peer).events) == Monitor(false, ack == 0, true, NoPulse)
  {
    SymbolsAppend(m, qe, ReadByteRun(ack, peer).events);
    ReadByteSymbols(Run(m, qe), ack, peer);
  }

  lemma {:induction false} ReceiveSymbols(m: Monitor, len: nat, i: nat, peer: seq<bool>)
    requires i <= len && !m.scl && m.slot == NoPulse
    ensures Symbols(m, Receive(len, i, peer).events) == RxSymbolsOf(len, i, peer)
    ensures Run(m, Receive(len, i, peer).events) == AfterReceive(m, len, i)
  {
    if i > 0 {
      ReceiveSymbols(m, len, i - 1, peer);
      ReadAfter(m, Receive(len, i - 1, peer).events, AckArg(len, i - 1), Receive(len, i - 1, peer).rest);
    }
  }

  lemma {:induction false} ReceiveParses(len: nat, i: nat, peer: seq<bool>)
    requires i <= len
    ensures Parses(RxSymbolsOf(len, i, peer), ReceivedFrames(len, Receive(len, i, peer).data))
  {
    if i == 0 {
      ParsesEmpty();
    } else {
      var q := Receive(len, i - 1, peer);
      var ack := AckArg(len, i - 1);
      var v := ReadByteRun(ack, q.rest).value;
      ReceiveParses(len, i - 1, peer);
      ReceivedParses(ByteLevels(q.rest), ack == 0);
      ParsesAppend(RxSymbolsOf(len, i - 1, peer), ReceivedFrames(len, q.data),
                   ByteSymbolsOf(q.rest, ack), [Received(v, i - 1 != len - 1)]);
      ReceivedFramesSnoc(len, q.data, v);
    }
  }

  lemma ReceivedFramesSnoc(len: nat, data: seq<Byte>, x: Byte)
    ensures ReceivedFrames(len, data + [x]) == ReceivedFrames(len, data) + [Received(x, |data| != len - 1)]
  {
    assert forall k :: 0 <= k < |data| ==> (data + [x])[k] == data[k];
  }

  /** The receive loop, decoded: one Received frame per byte, ACK on all but the last of len. */
  lemma ReceiveDecodes(m: Monitor, len: nat, i: nat, peer: seq<bool>)
    requires i <= len && !m.scl && m.slot == NoPulse
    ensures var r := Receive(len, i, peer);
      && Parses(Symbols(m, r.events), ReceivedFrames(len, r.data))
      && Run(m, r.events) == AfterReceive(m, len, i)
  {
    ReceiveSymbols(m, len, i, peer);
    ReceiveParses(len, i, peer);
  }
}
