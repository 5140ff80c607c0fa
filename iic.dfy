/**
 * The software I2C master of `iic.c` as an object over its line state: the
 * SCL level, the SDA output latch and the SDA direction, plus the script of
 * levels the device puts on SDA for the master's reads and, as a ghost, the
 * trace of every line event so far. Each method mirrors one C function,
 * statement by statement, and is proved to append exactly the line program
 * of the matching pure run in modules Engine and Protocol; what an observer
 * decodes from those programs is proved in modules Engine, Protocol and
 * Transactions.
 */
module Iic {
  import opened Bits
  import opened Wire
  import opened Engine
  import opened Protocol

  /** Reading SDA once more: the next level of the script, and the script after it. */
  lemma DropOne(peer: seq<bool>, n: nat)
    ensures Line(Drop(peer, n), 0) == Line(peer, n)
    ensures Drop(Drop(peer, n), 1) == Drop(peer, n + 1)
  {
  }

  /** A send phase grows by one byte exactly as Phase unfolds. */
  lemma PhaseSnoc(bytes: seq<Byte>, b: Byte, peer: seq<bool>)
    ensures var q := Phase(bytes, peer);
      Phase(bytes + [b], peer)
        == if !q.ok then q
           else var w := WaitAckRun(q.rest);
             PhaseRun(q.events + StepEvents(b, w), q.sent + 1, w.acked, w.rest)
  {
    assert (bytes + [b])[..|bytes|] == bytes;
  }

  /** The prefix of one more element. */
  lemma TakeSnoc<T>(s: seq<T>, k: nat)
    requires k < |s|
    ensures s[..k] + [s[k]] == s[..k + 1]
  {
  }

  lemma TakeAll<T>(s: seq<T>)
    ensures s[..|s|] == s
  {
  }

  /** `bytes` is `header` followed by `data`. */
  ghost predicate Joined(bytes: seq<Byte>, header: seq<Byte>, data: seq<Byte>)
  {
    forall u {:trigger Open(u)} :: Open(u) ==> bytes == header + data
  }

  /**
   * The bytes a transaction sends: a header of one, two or three bytes, then
   * `data`. The lemmas give them by where each byte sits rather than as a
   * concatenation, so that the methods indexing into them need no reasoning
   * about concatenation.
   */
  lemma Prefixed1(a: Byte, data: seq<Byte>) returns (bytes: seq<Byte>)
    ensures |bytes| == 1 + |data| && Joined(bytes, [a], data) && Tail(bytes, 1, data)
    ensures bytes[0] == a
  {
    assert Open(0);
    bytes := [a] + data;
  }

  lemma Prefixed2(a: Byte, b: Byte, data: seq<Byte>) returns (bytes: seq<Byte>)
    ensures |bytes| == 2 + |data| && Joined(bytes, [a, b], data) && Tail(bytes, 2, data)
    ensures bytes[0] == a && bytes[1] == b
  {
    assert Open(0);
    bytes := [a, b] + data;
  }

  lemma Prefixed3(a: Byte, b: Byte, c: Byte, data: seq<Byte>) returns (bytes: seq<Byte>)
    ensures |bytes| == 3 + |data| && Joined(bytes, [a, b, c], data) && Tail(bytes, 3, data)
    ensures bytes[0] == a && bytes[1] == b && bytes[2] == c
  {
    assert Open(0);
    bytes := [a, b, c] + data;
  }

  /** From position k on, `bytes` is `data`. */
  ghost predicate Tail(bytes: seq<Byte>, k: nat, data: seq<Byte>)
  {
    forall u {:trigger Open(u)} :: Open(u) ==>
      k + |data| == |bytes| && forall i :: 0 <= i < |data| ==> bytes[k + i] == data[i]
  }

  lemma TailAt(bytes: seq<Byte>, k0: nat, data: seq<Byte>, i: nat, k: nat)
    requires Tail(bytes, k0, data) && i < |data| && k == k0 + i
    ensures k < |bytes| && bytes[k] == data[i]
  {
    assert Open(0);
  }

  lemma TailEnd(bytes: seq<Byte>, k0: nat, data: seq<Byte>, k: nat)
    requires Tail(bytes, k0, data) && k == k0 + |data|
    ensures k == |bytes|
  {
    assert Open(0);
  }

  lemma AppendNil<T>(s: seq<T>)
    ensures s + [] == s && [] + s == s
  {
  }

  /** The phase of the first k + 1 bytes, from the phase of the first k. */
  lemma PhaseNext(bytes: seq<Byte>, k: nat, peer: seq<bool>)
    requires k < |bytes|
    ensures var q := Phase(bytes[..k], peer);
      Phase(bytes[..k + 1], peer)
        == if !q.ok then q
           else var w := WaitAckRun(q.rest);
             PhaseRun(q.events + StepEvents(bytes[k], w), q.sent + 1, w.acked, w.rest)
  {
    TakeSnoc(bytes, k);
    PhaseSnoc(bytes[..k], bytes[k], peer);
  }

  /** The phase of no bytes. */
  lemma PhaseNil(bytes: seq<Byte>, peer: seq<bool>)
    ensures Phase(bytes[..0], peer) == PhaseRun([], 0, true, peer)
  {
    assert bytes[..0] == [];
  }

  /** Once a phase has aborted, the bytes after the failing one change nothing. */
  lemma {:induction false} PhaseAborted(bytes: seq<Byte>, k: nat, peer: seq<bool>)
    requires k <= |bytes| && !Phase(bytes[..k], peer).ok
    ensures Phase(bytes, peer) == Phase(bytes[..k], peer)
    decreases |bytes| - k
  {
    if k < |bytes| {
      PhaseNext(bytes, k, peer);
      PhaseAborted(bytes, k + 1, peer);
    } else {
      TakeAll(bytes);
    }
  }

  /**
   * A trigger for the definitions of the phase predicates below. The
   * transaction methods only hand these facts on from one call to the next,
   * so the definitions stay folded there; each lemma that needs one opens it
   * with `assert Open(0);`. Keeping them folded keeps the methods' proof
   * obligations free of the unfolded phase runs.
   */
  ghost predicate Open(u: int) { true }

  /**
   * The first k of `bytes` went out as a phase from script p0 and were all
   * acknowledged: the trace is t1 followed by their events and the script
   * left is the phase's.
   */
  ghost predicate AllAcked(bytes: seq<Byte>, k: nat, p0: seq<bool>, t1: seq<Event>, tr: seq<Event>, pr: seq<bool>)
  {
    forall u {:trigger Open(u)} :: Open(u) ==>
      k <= |bytes| && var q := Phase(bytes[..k], p0); q.ok && tr == t1 + q.events && pr == q.rest
  }

  /** The phase of all of `bytes` from script p0 is over and went as `ok` says. */
  ghost predicate PhaseOver(bytes: seq<Byte>, p0: seq<bool>, t1: seq<Event>, tr: seq<Event>, pr: seq<bool>, ok: bool)
  {
    forall u {:trigger Open(u)} :: Open(u) ==>
      var p := Phase(bytes, p0); ok == p.ok && tr == t1 + p.events && pr == p.rest
  }

  /**
   * A write phase is over and C has returned: 0 with the final STOP after
   * every byte was acknowledged, 1 right after the step that timed out.
   */
  ghost predicate WriteOver(bytes: seq<Byte>, p0: seq<bool>, t1: seq<Event>, tr: seq<Event>, pr: seq<bool>, status: Byte)
  {
    forall u {:trigger Open(u)} :: Open(u) ==>
      var p := Phase(bytes, p0);
      && (status == 0 || status == 1) && (status == 0 <==> p.ok)
      && tr == t1 + p.events + (if p.ok then StopSeq else []) && pr == p.rest
  }

  lemma AckedStart(bytes: seq<Byte>, p0: seq<bool>, t1: seq<Event>)
    ensures AllAcked(bytes, 0, p0, t1, t1, p0)
  {
    PhaseNil(bytes, p0);
    AppendNil(t1);
  }

  /**
   * One more byte, sent and waited for: the phase goes on if it was
   * acknowledged, and is over otherwise.
   */
  lemma AckedNext(bytes: seq<Byte>, k: nat, p0: seq<bool>, t1: seq<Event>, tr0: seq<Event>, pr0: seq<bool>,
                  tr: seq<Event>, pr: seq<bool>, acked: bool)
    requires k < |bytes| && AllAcked(bytes, k, p0, t1, tr0, pr0)
    requires var w := WaitAckRun(pr0); tr == tr0 + StepEvents(bytes[k], w) && pr == w.rest && acked == w.acked
    ensures acked ==> AllAcked(bytes, k + 1, p0, t1, tr, pr)
    ensures !acked ==> PhaseOver(bytes, p0, t1, tr, pr, false)
  {
    assert Open(0);
    var q := Phase(bytes[..k], p0);
    PhaseNext(bytes, k, p0);
    Assoc2(t1, q.events, StepEvents(bytes[k], WaitAckRun(pr0)));
    if !acked {
      PhaseAborted(bytes, k + 1, p0);
    }
  }

  lemma AckedAll(bytes: seq<Byte>, p0: seq<bool>, t1: seq<Event>, tr: seq<Event>, pr: seq<bool>)
    requires AllAcked(bytes, |bytes|, p0, t1, tr, pr)
    ensures PhaseOver(bytes, p0, t1, tr, pr, true)
  {
    assert Open(0);
    TakeAll(bytes);
  }

  /** A write phase that is over, followed by the final stop when it went well. */
  lemma WriteEnd(bytes: seq<Byte>, p0: seq<bool>, t1: seq<Event>, tr: seq<Event>, pr: seq<bool>, ok: bool, tr2: seq<Event>)
    requires PhaseOver(bytes, p0, t1, tr, pr, ok) && tr2 == if ok then tr + StopSeq else tr
    ensures WriteOver(bytes, p0, t1, tr2, pr, if ok then 0 else 1)
  {
    assert Open(0);
    AppendNil(tr);
  }

  /** A whole write transaction: the START before the phase, and the outcome C returns. */
  lemma WriteDone(bytes: seq<Byte>, p0: seq<bool>, t0: seq<Event>, t1: seq<Event>, tr: seq<Event>, pr: seq<bool>, status: Byte)
    requires t1 == t0 + StartSeq && WriteOver(bytes, p0, t1, tr, pr, status)
    ensures var o := WriteTransaction(bytes, p0); status == o.status && tr == t0 + o.events && pr == o.rest
  {
    assert Open(0);
    var p := Phase(bytes, p0);
    Assoc(t0, StartSeq, p.events, if p.ok then StopSeq else []);
  }

  /** `iic_write_cmd` once its phase is over. */
  lemma WriteCmdDone(addr: Byte, data: seq<Byte>, bytes: seq<Byte>, p0: seq<bool>, t0: seq<Event>, t1: seq<Event>,
                     tr: seq<Event>, pr: seq<bool>, status: Byte)
    requires Joined(bytes, [addr], data) && t1 == t0 + StartSeq && WriteOver(bytes, p0, t1, tr, pr, status)
    ensures var o := WriteCmdRun(addr, data, p0); status == o.status && tr == t0 + o.events && pr == o.rest
  {
    assert Open(0);
    WriteDone(bytes, p0, t0, t1, tr, pr, status);
  }

  /** `iic_write` once its phase is over. */
  lemma WriteRegDone(addr: Byte, reg: Byte, data: seq<Byte>, bytes: seq<Byte>, p0: seq<bool>, t0: seq<Event>, t1: seq<Event>,
                     tr: seq<Event>, pr: seq<bool>, status: Byte)
    requires Joined(bytes, [addr, reg], data) && t1 == t0 + StartSeq && WriteOver(bytes, p0, t1, tr, pr, status)
    ensures var o := WriteRun(addr, reg, data, p0); status == o.status && tr == t0 + o.events && pr == o.rest
  {
    assert Open(0);
    WriteDone(bytes, p0, t0, t1, tr, pr, status);
  }

  /** `iic_write_address16` once its phase is over. */
  lemma WriteAddress16Done(addr: Byte, reg: Word, data: seq<Byte>, bytes: seq<Byte>, p0: seq<bool>, t0: seq<Event>, t1: seq<Event>,
                           tr: seq<Event>, pr: seq<bool>, status: Byte)
    requires Joined(bytes, [addr, HighByte(reg), LowByte(reg)], data)
    requires t1 == t0 + StartSeq && WriteOver(bytes, p0, t1, tr, pr, status)
    ensures var o := WriteAddress16Run(addr, reg, data, p0); status == o.status && tr == t0 + o.events && pr == o.rest
  {
    assert Open(0);
    WriteDone(bytes, p0, t0, t1, tr, pr, status);
  }

  /** The header of a combined read was not acknowledged: C returns 1 with nothing read. */
  lemma HeaderAborted(header: seq<Byte>, readAddr: Byte, len: nat, p0: seq<bool>,
                      t0: seq<Event>, t1: seq<Event>, tr: seq<Event>, pr: seq<bool>)
    requires t1 == t0 + StartSeq && PhaseOver(header, p0, t1, tr, pr, false)
    ensures var o := AddressedRead(header, readAddr, len, p0); o.status == 1 && tr == t0 + o.events && pr == o.rest
  {
    assert Open(0);
    Assoc2(t0, StartSeq, Phase(header, p0).events);
  }

  /** The header of a combined read was acknowledged: `prefix` is its START and steps, pr the script left. */
  ghost predicate HeaderOk(header: seq<Byte>, p0: seq<bool>, prefix: seq<Event>, pr: seq<bool>)
  {
    forall u {:trigger Open(u)} :: Open(u) ==>
      var p := Phase(header, p0); p.ok && prefix == StartSeq + p.events && pr == p.rest
  }

  /**
   * A read from the repeated START on is over as ReadFrom says, with trace
   * t0 before `prefix`: the status, the trace, the script left and, after
   * a success, the bytes stored.
   */
  ghost predicate ReadOver(prefix: seq<Event>, readAddr: Byte, len: nat, p1: seq<bool>, t0: seq<Event>,
                           tr: seq<Event>, pr: seq<bool>, status: Byte, data: seq<Byte>)
  {
    forall u {:trigger Open(u)} :: Open(u) ==>
      var o := ReadFrom(prefix, readAddr, len, p1);
      status == o.status && tr == t0 + o.events && pr == o.rest && (status == 0 ==> data == o.data)
  }

  lemma HeaderSent(header: seq<Byte>, p0: seq<bool>, t0: seq<Event>, t1: seq<Event>, tr: seq<Event>, pr: seq<bool>)
    returns (prefix: seq<Event>)
    requires t1 == t0 + StartSeq && AllAcked(header, |header|, p0, t1, tr, pr)
    ensures tr == t0 + prefix && HeaderOk(header, p0, prefix, pr)
  {
    assert Open(0);
    TakeAll(header);
    prefix := StartSeq + Phase(header, p0).events;
    Assoc2(t0, StartSeq, Phase(header, p0).events);
  }

  /** A combined read whose header was acknowledged is AddressedRead. */
  lemma HeaderRead(header: seq<Byte>, readAddr: Byte, len: nat, p0: seq<bool>, prefix: seq<Event>, p1: seq<bool>,
                   t0: seq<Event>, tr: seq<Event>, pr: seq<bool>, status: Byte, data: seq<Byte>)
    requires HeaderOk(header, p0, prefix, p1) && ReadOver(prefix, readAddr, len, p1, t0, tr, pr, status, data)
    ensures var o := AddressedRead(header, readAddr, len, p0);
      status == o.status && tr == t0 + o.events && pr == o.rest && (status == 0 ==> data == o.data)
  {
    assert Open(0);
  }

  /** `iic_read_cmd` is ReadFrom after nothing. */
  lemma ReadCmdDone(addr: Byte, len: nat, p0: seq<bool>, t0: seq<Event>, tr: seq<Event>, pr: seq<bool>,
                    status: Byte, data: seq<Byte>)
    requires ReadOver([], addr + 1, len, p0, t0, tr, pr, status, data)
    ensures var o := ReadCmdRun(addr, len, p0);
      status == o.status && tr == t0 + o.events && pr == o.rest && (status == 0 ==> data == o.data)
  {
    assert Open(0);
  }

  /** `iic_read` after its header was acknowledged. */
  lemma ReadDone(addr: Byte, reg: Byte, len: nat, p0: seq<bool>, header: seq<Byte>, prefix: seq<Event>, p1: seq<bool>,
                 t0: seq<Event>, tr: seq<Event>, pr: seq<bool>, status: Byte, data: seq<Byte>)
    requires Joined(header, [addr, reg], []) && HeaderOk(header, p0, prefix, p1)
    requires ReadOver(prefix, addr + 1, len, p1, t0, tr, pr, status, data)
    ensures var o := ReadRun(addr, reg, len, p0);
      status == o.status && tr == t0 + o.events && pr == o.rest && (status == 0 ==> data == o.data)
  {
    assert Open(0);
    AppendNil([addr, reg]);
    HeaderRead(header, addr + 1, len, p0, prefix, p1, t0, tr, pr, status, data);
  }

  /** `iic_read` when a header byte was not acknowledged. */
  lemma ReadAbort(addr: Byte, reg: Byte, len: nat, p0: seq<bool>, header: seq<Byte>,
                  t0: seq<Event>, t1: seq<Event>, tr: seq<Event>, pr: seq<bool>)
    requires Joined(header, [addr, reg], []) && t1 == t0 + StartSeq && PhaseOver(header, p0, t1, tr, pr, false)
    ensures var o := ReadRun(addr, reg, len, p0); o.status == 1 && tr == t0 + o.events && pr == o.rest
  {
    assert Open(0);
    AppendNil([addr, reg]);
    HeaderAborted(header, addr + 1, len, p0, t0, t1, tr, pr);
  }

  /** `iic_read_address16` after its header was acknowledged. */
  lemma ReadAddress16Done(addr: Byte, reg: Word, len: nat, p0: seq<bool>, header: seq<Byte>, prefix: seq<Event>, p1: seq<bool>,
                          t0: seq<Event>, tr: seq<Event>, pr: seq<bool>, status: Byte, data: seq<Byte>)
    requires Joined(header, [addr, HighByte(reg), LowByte(reg)], []) && HeaderOk(header, p0, prefix, p1)
    requires ReadOver(prefix, addr + 1, len, p1, t0, tr, pr, status, data)
    ensures var o := ReadAddress16Run(addr, reg, len, p0);
      status == o.status && tr == t0 + o.events && pr == o.rest && (status == 0 ==> data == o.data)
  {
    assert Open(0);
    AppendNil([addr, HighByte(reg), LowByte(reg)]);
    HeaderRead(header, addr + 1, len, p0, prefix, p1, t0, tr, pr, status, data);
  }

  /** `iic_read_address16` when a header byte was not acknowledged. */
  lemma ReadAddress16Abort(addr: Byte, reg: Word, len: nat, p0: seq<bool>, header: seq<Byte>,
                           t0: seq<Event>, t1: seq<Event>, tr: seq<Event>, pr: seq<bool>)
    requires Joined(header, [addr, HighByte(reg), LowByte(reg)], [])
    requires t1 == t0 + StartSeq && PhaseOver(header, p0, t1, tr, pr, false)
    ensures var o := ReadAddress16Run(addr, reg, len, p0); o.status == 1 && tr == t0 + o.events && pr == o.rest
  {
    assert Open(0);
    AppendNil([addr, HighByte(reg), LowByte(reg)]);
    HeaderAborted(header, addr + 1, len, p0, t0, t1, tr, pr);
  }

  /** The read address was not acknowledged: C returns 1 with nothing read. */
  lemma ReadAborted(t0: seq<Event>, prefix: seq<Event>, readAddr: Byte, len: nat, p1: seq<bool>,
                    t2: seq<Event>, tr: seq<Event>, pr: seq<bool>, data: seq<Byte>)
    requires t2 == t0 + prefix + StartSeq && PhaseOver([readAddr], p1, t2, tr, pr, false)
    ensures ReadOver(prefix, readAddr, len, p1, t0, tr, pr, 1, data)
  {
    assert Open(0);
    Assoc(t0, prefix, StartSeq, Phase([readAddr], p1).events);
  }

  /** The read address was acknowledged and then len bytes received and the bus stopped. */
  lemma ReadReceived(t0: seq<Event>, prefix: seq<Event>, readAddr: Byte, len: nat, p1: seq<bool>,
                     t2: seq<Event>, tr1: seq<Event>, pr1: seq<bool>, tr: seq<Event>, pr: seq<bool>, data: seq<Byte>)
    requires t2 == t0 + prefix + StartSeq && AllAcked([readAddr], 1, p1, t2, tr1, pr1)
    requires var r := Receive(len, len, pr1); tr == tr1 + r.events + StopSeq && pr == r.rest && data == r.data
    ensures ReadOver(prefix, readAddr, len, p1, t0, tr, pr, 0, data)
  {
    assert Open(0);
    var one := [readAddr];
    assert one[..1] == one;
    var p := Phase(one, p1);
    Assoc6(t0, prefix, StartSeq, p.events, Receive(len, len, p.rest).events, StopSeq);
  }

  /** The receive loop grows by one byte exactly as Receive unfolds. */
  lemma ReceiveStep(len: nat, i: nat, peer: seq<bool>)
    requires i < len
    ensures var r := Receive(len, i, peer);
      var b := ReadByteRun(AckArg(len, i), r.rest);
      Receive(len, i + 1, peer) == RxRun(r.events + b.events, r.data + [b.value], b.rest)
  {
  }

  /**
   * The first pos turns of the receive loop for an initial length len ran
   * from script p0 after trace t0: the trace, the script left and the bytes
   * stored are Receive's.
   */
  ghost predicate RxSoFar(len: nat, pos: nat, p0: seq<bool>, t0: seq<Event>, tr: seq<Event>, pr: seq<bool>, data: seq<Byte>)
  {
    forall u {:trigger Open(u)} :: Open(u) ==>
      pos <= len && var r := Receive(len, pos, p0); tr == t0 + r.events && pr == r.rest && data == r.data
  }

  lemma RxStart(len: nat, p0: seq<bool>, t0: seq<Event>)
    ensures RxSoFar(len, 0, p0, t0, t0, p0, [])
  {
    assert Open(0);
    AppendNil(t0);
  }

  /** One more turn of the receive loop, reading with the `ack` argument C passes. */
  lemma RxNext(len: nat, pos: nat, p0: seq<bool>, t0: seq<Event>, tr0: seq<Event>, pr0: seq<bool>, data: seq<Byte>,
               ack: Byte, tr: seq<Event>, pr: seq<bool>, b: Byte)
    requires pos < len && ack == AckArg(len, pos) && RxSoFar(len, pos, p0, t0, tr0, pr0, data)
    requires var rb := ReadByteRun(ack, pr0); tr == tr0 + rb.events && pr == rb.rest && b == rb.value
    ensures RxSoFar(len, pos + 1, p0, t0, tr, pr, data + [b])
  {
    assert Open(0);
    var r := Receive(len, pos, p0);
    ReceiveStep(len, pos, p0);
    Assoc2(t0, r.events, ReadByteRun(ack, pr0).events);
  }

  /** The receive loop is over and the bus stopped. */
  lemma RxEnd(len: nat, p0: seq<bool>, t0: seq<Event>, tr: seq<Event>, pr: seq<bool>, data: seq<Byte>, tr2: seq<Event>)
    requires RxSoFar(len, len, p0, t0, tr, pr, data) && tr2 == tr + StopSeq
    ensures var r := Receive(len, len, p0); tr2 == t0 + r.events + StopSeq && pr == r.rest && data == r.data
  {
    assert Open(0);
  }

  /** Regrouping a trace that grew by three pieces. */
  lemma Assoc(t: seq<Event>, a: seq<Event>, b: seq<Event>, c: seq<Event>)
    ensures t + a + b + c == t + (a + b + c)
  {
  }

  lemma Assoc6(t: seq<Event>, a: seq<Event>, b: seq<Event>, c: seq<Event>, d: seq<Event>, e: seq<Event>)
    ensures t + a + b + c + d + e == t + (a + b + c + d + e)
  {
  }

  lemma Assoc2(a: seq<Event>, b: seq<Event>, c: seq<Event>)
    ensures a + b + c == a + (b + c)
  {
  }

  /** The events of one turn of the send loop, appended one at a time. */
  lemma BitCycleTrace(t: seq<Event>, high: bool)
    ensures t + [SetSda(high)] + [Delay(10)] + [SetScl(true)] + [Delay(10)] + [SetScl(false)] + [Delay(10)]
         == t + BitCycle(high)
  {
  }

  /** The events of one turn of the receive loop, appended one at a time. */
  lemma ReadCycleTrace(t: seq<Event>, high: bool)
    ensures t + [SetScl(false)] + [Delay(10)] + [SetScl(true)] + [Sample(high)] + [Delay(10)]
         == t + ReadCycle(high)
  {
  }

  /** One more turn of the send loop. */
  lemma ClockOutSnoc(levels: seq<bool>, t: nat)
    requires t < |levels|
    ensures ClockOut(levels[..t + 1]) == ClockOut(levels[..t]) + BitCycle(levels[t])
  {
    assert levels[..t + 1][..t] == levels[..t];
  }

  /** One more turn of the receive loop: `receive <<= 1`, then `receive++` on a high level. */
  lemma AccumulateStep(levels: seq<bool>, i: nat, r0: Byte, high: bool, r1: Byte)
    requires i < |levels| && r0 == Accumulate(levels[..i]) && high == levels[i]
    requires r1 == if high then (r0 << 1) + 1 else r0 << 1
    ensures r1 == Accumulate(levels[..i + 1])
  {
    assert levels[..i + 1][..i] == levels[..i];
  }

  /** One more turn of the receive loop. */
  lemma ClockInSnoc(levels: seq<bool>, i: nat)
    requires i < |levels|
    ensures ClockIn(levels[..i + 1]) == ClockIn(levels[..i]) + ReadCycle(levels[i])
  {
    assert levels[..i + 1][..i] == levels[..i];
  }

  class Bus {
    /** IIC_SCL: the level the master drives on SCL. */
    var scl: bool
    /** IIC_SDA: the SDA output latch. */
    var sdaLatch: bool
    /** Whether SDA is configured as an output (SDA_OUT) or an input (SDA_IN). */
    var sdaIsOutput: bool
    /** The levels READ_SDA will return, in order; past the end the released line reads high. */
    var peer: seq<bool>
    /** Every line event performed so far. */
    ghost var trace: seq<Event>

    /** The pins out of reset: latches low, SDA an input, nothing done yet. */
    constructor (script: seq<bool>)
      ensures !scl && !sdaLatch && !sdaIsOutput && peer == script && trace == []
    {
      scl := false;
      sdaLatch := false;
      sdaIsOutput := false;
      peer := script;
      trace := [];
    }

    // -------------------------------------------------------------------------
    // Line primitives (the bit-band macros and delay_us)
    // -------------------------------------------------------------------------

    method WriteScl(high: bool)
      modifies this
      ensures scl == high && sdaLatch == old(sdaLatch) && sdaIsOutput == old(sdaIsOutput)
      ensures peer == old(peer) && trace == old(trace) + [SetScl(high)]
    {
      scl := high;
      trace := trace + [SetScl(high)];
    }

    method WriteSda(high: bool)
      modifies this
      ensures sdaLatch == high && scl == old(scl) && sdaIsOutput == old(sdaIsOutput)
      ensures peer == old(peer) && trace == old(trace) + [SetSda(high)]
    {
      sdaLatch := high;
      trace := trace + [SetSda(high)];
    }

    method SdaOutput()
      modifies this
      ensures sdaIsOutput && scl == old(scl) && sdaLatch == old(sdaLatch)
      ensures peer == old(peer) && trace == old(trace) + [SdaOut]
    {
      sdaIsOutput := true;
      trace := trace + [SdaOut];
    }

    method SdaInput()
      modifies this
      ensures !sdaIsOutput && scl == old(scl) && sdaLatch == old(sdaLatch)
      ensures peer == old(peer) && trace == old(trace) + [SdaIn]
    {
      sdaIsOutput := false;
      trace := trace + [SdaIn];
    }

    /** READ_SDA: the device's next level. */
    method ReadSda() returns (high: bool)
      modifies this
      ensures high == Line(old(peer), 0) && peer == Drop(old(peer), 1)
      ensures scl == old(scl) && sdaLatch == old(sdaLatch) && sdaIsOutput == old(sdaIsOutput)
      ensures trace == old(trace) + [Sample(high)]
    {
      high := Line(peer, 0);
      peer := Drop(peer, 1);
      trace := trace + [Sample(high)];
    }

    method DelayUs(us: nat)
      modifies this
      ensures scl == old(scl) && sdaLatch == old(sdaLatch) && sdaIsOutput == old(sdaIsOutput)
      ensures peer == old(peer) && trace == old(trace) + [Delay(us)]
    {
      trace := trace + [Delay(us)];
    }

    // -------------------------------------------------------------------------
    // Bus state
    // -------------------------------------------------------------------------

    /** `iic_init`: both pins outputs, SDA then SCL driven high; always 0. */
    method Init() returns (status: Byte)
      modifies this
      ensures status == 0 && scl && sdaLatch && sdaIsOutput && peer == old(peer)
      ensures trace == old(trace) + InitSeq
    {
      SdaOutput();
      WriteSda(true);
      WriteScl(true);
      return 0;
    }

    /** `iic_scl_write`: the bit-band alias keeps bit 0 of the value; always 0. */
    method SclWrite(value: Byte) returns (status: Byte)
      modifies this
      ensures status == 0 && scl == (value & 1 == 1)
      ensures sdaLatch == old(sdaLatch) && sdaIsOutput == old(sdaIsOutput) && peer == old(peer)
      ensures trace == old(trace) + [SetScl(value & 1 == 1)]
    {
      WriteScl(value & 1 == 1);
      return 0;
    }

    /** `iic_sda_write`: SDA made an output, then bit 0 of the value latched; always 0. */
    method SdaWrite(value: Byte) returns (status: Byte)
      modifies this
      ensures status == 0 && sdaIsOutput && sdaLatch == (value & 1 == 1)
      ensures scl == old(scl) && peer == old(peer)
      ensures trace == old(trace) + [SdaOut, SetSda(value & 1 == 1)]
    {
      SdaOutput();
      WriteSda(value & 1 == 1);
      return 0;
    }

    // -------------------------------------------------------------------------
    // Engine
    // -------------------------------------------------------------------------

    /** `_iic_start`: leaves SCL low and SDA driven high. */
    method Start()
      modifies this
      ensures !scl && sdaLatch && sdaIsOutput && peer == old(peer)
      ensures trace == old(trace) + StartSeq
    {
      SdaOutput();
      WriteScl(true);
      DelayUs(15);
      WriteSda(false);
      DelayUs(15);
      WriteScl(false);
      DelayUs(15);
      WriteSda(true);
      DelayUs(15);
    }

    /** `_iic_stop`: leaves both lines high with SDA driven, the idle bus. */
    method Stop()
      modifies this
      ensures scl && sdaLatch && sdaIsOutput && peer == old(peer)
      ensures trace == old(trace) + StopSeq
    {
      SdaOutput();
      WriteSda(false);
      DelayUs(15);
      WriteScl(true);
      DelayUs(15);
      WriteSda(true);
      DelayUs(15);
    }

    /**
     * `_iic_wait_ack`: 0 after a low read, with SCL lowered and SDA still an
     * input; 1 after the poll counter passes 500, with the bus stopped.
     */
    method WaitAck() returns (status: Byte)
      modifies this
      ensures var w := WaitAckRun(old(peer));
        && (status == 0 || status == 1) && (status == 0 <==> w.acked)
        && trace == old(trace) + w.events && peer == w.rest
        && sdaLatch && (w.acked ==> !scl && !sdaIsOutput) && (!w.acked ==> scl && sdaIsOutput)
    {
      ghost var p0 := peer;
      ghost var t0 := trace;
      var errTime: nat := 0;
      SdaInput();
      WriteSda(true);
      DelayUs(20);
      WriteScl(true);
      DelayUs(20);
      assert trace == t0 + WaitAckHead;
      DropOne(p0, 0);
      var level := ReadSda();
      assert Samples(p0, 1) == [Sample(Line(p0, 0))];
      while level
        invariant errTime <= AckPollLimit
        invariant level == Line(p0, errTime) && peer == Drop(p0, errTime + 1)
        invariant trace == t0 + WaitAckHead + Samples(p0, errTime + 1)
        invariant Polls(p0, 0) == Polls(p0, errTime)
        invariant scl && sdaLatch && !sdaIsOutput
        decreases AckPollLimit - errTime
      {
        errTime := errTime + 1;
        if errTime > AckPollLimit {
          Stop();
          Assoc(t0, WaitAckHead, Samples(p0, AckPollLimit + 1), StopSeq);
          return 1;
        }
        DropOne(p0, errTime);
        level := ReadSda();
        Assoc2(t0 + WaitAckHead, Samples(p0, errTime), [Sample(Line(p0, errTime))]);
      }
      ghost var tc := trace;
      WriteScl(false);
      DelayUs(20);
      assert trace == tc + WaitAckTail;
      Assoc(t0, WaitAckHead, Samples(p0, errTime + 1), WaitAckTail);
      return 0;
    }

    /** `_iic_ack` (high false) and `_iic_nack` (high true). */
    method AckBit(high: bool)
      modifies this
      ensures !scl && sdaLatch == high && sdaIsOutput && peer == old(peer)
      ensures trace == old(trace) + AckBitSeq(high)
    {
      WriteScl(false);
      DelayUs(20);
      SdaOutput();
      WriteSda(high);
      DelayUs(20);
      WriteScl(true);
      DelayUs(20);
      WriteScl(false);
      DelayUs(20);
    }

    /** `_iic_ack`: one clock with SDA driven low. */
    method Ack()
      modifies this
      ensures !scl && !sdaLatch && sdaIsOutput && peer == old(peer)
      ensures trace == old(trace) + AckBitSeq(false)
    {
      AckBit(false);
    }

    /** `_iic_nack`: one clock with SDA driven high. */
    method Nack()
      modifies this
      ensures !scl && sdaLatch && sdaIsOutput && peer == old(peer)
      ensures trace == old(trace) + AckBitSeq(true)
    {
      AckBit(true);
    }

    /** `_iic_send_byte`: eight clocks, the level of each being bit 7 of `txd` shifted so far. */
    method SendByte(txd: Byte)
      modifies this
      ensures !scl && sdaIsOutput && sdaLatch == TxBits(txd)[7] && peer == old(peer)
      ensures trace == old(trace) + SendByteSeq(txd)
    {
      ghost var t0 := trace;
      var x := txd;
      SdaOutput();
      WriteScl(false);
      for t := 0 to 8
        invariant x == Shifted(txd, t)
        invariant trace == t0 + [SdaOut, SetScl(false)] + ClockOut(TxBits(txd)[..t])
        invariant !scl && sdaIsOutput && peer == old(peer)
        invariant t > 0 ==> sdaLatch == TxBits(txd)[t - 1]
      {
        ghost var tb := trace;
        WriteSda((x & 0x80) >> 7 == 1);
        x := x << 1;
        DelayUs(10);
        WriteScl(true);
        DelayUs(10);
        WriteScl(false);
        DelayUs(10);
        BitCycleTrace(tb, TxBits(txd)[t]);
        ClockOutSnoc(TxBits(txd), t);
        Assoc2(t0 + [SdaOut, SetScl(false)], ClockOut(TxBits(txd)[..t]), BitCycle(TxBits(txd)[t]));
      }
      assert TxBits(txd)[..8] == TxBits(txd);
      Assoc2(t0, [SdaOut, SetScl(false)], ClockOut(TxBits(txd)));
    }

    /** `_iic_read_byte`: eight samples shifted in MSB-first, then NACK when `ack` is 0, ACK otherwise. */
    method ReadByte(ack: Byte) returns (receive: Byte)
      modifies this
      ensures var r := ReadByteRun(ack, old(peer));
        && receive == r.value && peer == r.rest && trace == old(trace) + r.events
        && !scl && sdaIsOutput && sdaLatch == (ack == 0)
    {
      ghost var p0 := peer;
      ghost var t0 := trace;
      ghost var levels := ByteLevels(p0);
      receive := 0;
      SdaInput();
      for i := 0 to 8
        invariant receive == Accumulate(levels[..i]) && peer == Drop(p0, i)
        invariant trace == t0 + [SdaIn] + ClockIn(levels[..i])
      {
        ghost var tb := trace;
        DropOne(p0, i);
        WriteScl(false);
        DelayUs(10);
        WriteScl(true);
        ghost var r0 := receive;
        receive := receive << 1;
        var high := ReadSda();
        if high {
          receive := receive + 1;
        }
        AccumulateStep(levels, i, r0, high, receive);
        DelayUs(10);
        ReadCycleTrace(tb, levels[i]);
        ClockInSnoc(levels, i);
        Assoc2(t0 + [SdaIn], ClockIn(levels[..i]), ReadCycle(levels[i]));
      }
      assert levels[..8] == levels;
      if ack == 0 {
        Nack();
      } else {
        Ack();
      }
      Assoc(t0, [SdaIn], ClockIn(levels), AckBitSeq(ack == 0));
    }

    // -------------------------------------------------------------------------
    // Transactions
    // -------------------------------------------------------------------------

    /**
     * The pattern every transaction repeats for each byte it sends:
     * `_iic_send_byte(b); if (_iic_wait_ack()) { _iic_stop(); return 1; }`.
     */
    method SendStep(b: Byte) returns (acked: bool)
      modifies this
      ensures var w := WaitAckRun(old(peer));
        && acked == w.acked && trace == old(trace) + StepEvents(b, w) && peer == w.rest
        && sdaLatch && (acked ==> !scl && !sdaIsOutput) && (!acked ==> scl && sdaIsOutput)
    {
      ghost var w := WaitAckRun(peer);
      ghost var t0 := trace;
      SendByte(b);
      var status := WaitAck();
      if status != 0 {
        Stop();
        Assoc(t0, SendByteSeq(b), w.events, StopSeq);
        return false;
      }
      Assoc(t0, SendByteSeq(b), w.events, []);
      return true;
    }

    /**
     * SendStep as byte k of a phase: the first k bytes of `bytes` have been
     * sent and acknowledged, from script p0 and trace t1.
     */
    method SendNext(ghost p0: seq<bool>, ghost t1: seq<Event>, ghost bytes: seq<Byte>, ghost k: nat, b: Byte)
      returns (acked: bool)
      requires k < |bytes| && b == bytes[k] && AllAcked(bytes, k, p0, t1, trace, peer)
      modifies this
      ensures acked ==> AllAcked(bytes, k + 1, p0, t1, trace, peer) && !scl && sdaLatch && !sdaIsOutput
      ensures !acked ==> PhaseOver(bytes, p0, t1, trace, peer, false) && WriteOver(bytes, p0, t1, trace, peer, 1)
      ensures !acked ==> scl && sdaLatch && sdaIsOutput
    {
      ghost var tr0 := trace;
      ghost var pr0 := peer;
      acked := SendStep(b);
      AckedNext(bytes, k, p0, t1, tr0, pr0, trace, peer, acked);
      if !acked {
        WriteEnd(bytes, p0, t1, trace, peer, false, trace);
      }
    }

    /**
     * The data loop of the three writes: `for (i = 0; i < len; i++)`
     * sending `buf[i]` with SendStep, leaving at the first byte that is not
     * acknowledged. The bytes `data` are those of `bytes` from k0 on.
     */
    method SendLoop(ghost p0: seq<bool>, ghost t1: seq<Event>, ghost bytes: seq<Byte>, ghost k0: nat, data: seq<Byte>)
      returns (acked: bool)
      requires Tail(bytes, k0, data) && AllAcked(bytes, k0, p0, t1, trace, peer)
      requires !scl && sdaLatch && !sdaIsOutput
      modifies this
      ensures PhaseOver(bytes, p0, t1, trace, peer, acked)
      ensures acked ==> !scl && sdaLatch && !sdaIsOutput
      ensures !acked ==> scl && sdaLatch && sdaIsOutput
    {
      var i: nat := 0;
      ghost var k := k0;
      while i < |data|
        invariant i <= |data| && k == k0 + i && AllAcked(bytes, k, p0, t1, trace, peer)
        invariant !scl && sdaLatch && !sdaIsOutput
      {
        TailAt(bytes, k0, data, i, k);
        acked := SendNext(p0, t1, bytes, k, data[i]);
        if !acked {
          return;
        }
        i := i + 1;
        k := k + 1;
      }
      TailEnd(bytes, k0, data, k);
      AckedAll(bytes, p0, t1, trace, peer);
      return true;
    }

    /** SendLoop, then `_iic_stop(); return 0;` once every byte was acknowledged. */
    method SendData(ghost p0: seq<bool>, ghost t1: seq<Event>, ghost bytes: seq<Byte>, ghost k0: nat, data: seq<Byte>)
      returns (status: Byte)
      requires Tail(bytes, k0, data) && AllAcked(bytes, k0, p0, t1, trace, peer)
      requires !scl && sdaLatch && !sdaIsOutput
      modifies this
      ensures WriteOver(bytes, p0, t1, trace, peer, status) && scl && sdaLatch && sdaIsOutput
    {
      var acked := SendLoop(p0, t1, bytes, k0, data);
      ghost var tr1 := trace;
      if acked {
        Stop();
        status := 0;
      } else {
        status := 1;
      }
      WriteEnd(bytes, p0, t1, tr1, peer, acked, trace);
    }

    /**
     * The data loop of the three reads and their final stop:
     * `while (len)` storing `_iic_read_byte(len == 1 ? 0 : 1)` at `*buf++`
     * and counting `len` down, then `_iic_stop(); return 0;`. The moving
     * `buf` is the index `pos` into the array.
     */
    method ReceiveData(buf: array<Byte>, len: nat)
      requires len <= buf.Length
      modifies this, buf
      ensures var r := Receive(len, len, old(peer));
        && trace == old(trace) + r.events + StopSeq && peer == r.rest
        && buf[..len] == r.data && (forall j :: len <= j < buf.Length ==> buf[j] == old(buf[j]))
        && scl && sdaLatch && sdaIsOutput
    {
      ghost var p0 := peer;
      ghost var t0 := trace;
      var count: nat := len;
      var pos: nat := 0;
      ghost var data: seq<Byte> := [];
      RxStart(len, p0, t0);
      while count != 0
        invariant pos + count == len && RxSoFar(len, pos, p0, t0, trace, peer, data)
        invariant buf[..pos] == data && (forall j :: pos <= j < buf.Length ==> buf[j] == old(buf[j]))
      {
        ghost var tr0 := trace;
        ghost var pr0 := peer;
        var b;
        if count == 1 {
          b := ReadByte(0);
          RxNext(len, pos, p0, t0, tr0, pr0, data, 0, trace, peer, b);
        } else {
          b := ReadByte(1);
          RxNext(len, pos, p0, t0, tr0, pr0, data, 1, trace, peer, b);
        }
        buf[pos] := b;
        TakeSnoc(buf[..], pos);
        data := data + [b];
        count := count - 1;
        pos := pos + 1;
      }
      ghost var tr1 := trace;
      Stop();
      RxEnd(len, p0, t0, tr1, peer, data, trace);
    }

    /** `iic_write_cmd`: `addr`, then `buf[0..len)`. */
    method WriteCmd(addr: Byte, buf: array<Byte>, len: Word) returns (status: Byte)
      requires len as int <= buf.Length
      modifies this
      ensures var o := WriteCmdRun(addr, old(buf[..len]), old(peer));
        && status == o.status && trace == old(trace) + o.events && peer == o.rest
        && scl && sdaLatch && sdaIsOutput
    {
      var data := buf[..len];
      ghost var p0 := peer;
      ghost var t0 := trace;
      ghost var bytes := Prefixed1(addr, data);
      Start();
      ghost var t1 := trace;
      AckedStart(bytes, p0, t1);
      var acked := SendNext(p0, t1, bytes, 0, addr);
      if !acked {
        WriteCmdDone(addr, data, bytes, p0, t0, t1, trace, peer, 1);
        return 1;
      }
      status := SendData(p0, t1, bytes, 1, data);
      WriteCmdDone(addr, data, bytes, p0, t0, t1, trace, peer, status);
    }

    /** `iic_write`: `addr`, `reg`, then `buf[0..len)`. */
    method Write(addr: Byte, reg: Byte, buf: array<Byte>, len: Word) returns (status: Byte)
      requires len as int <= buf.Length
      modifies this
      ensures var o := WriteRun(addr, reg, old(buf[..len]), old(peer));
        && status == o.status && trace == old(trace) + o.events && peer == o.rest
        && scl && sdaLatch && sdaIsOutput
    {
      var data := buf[..len];
      ghost var p0 := peer;
      ghost var t0 := trace;
      ghost var bytes := Prefixed2(addr, reg, data);
      Start();
      ghost var t1 := trace;
      AckedStart(bytes, p0, t1);
      var acked := SendNext(p0, t1, bytes, 0, addr);
      if !acked {
        WriteRegDone(addr, reg, data, bytes, p0, t0, t1, trace, peer, 1);
        return 1;
      }
      acked := SendNext(p0, t1, bytes, 1, reg);
      if !acked {
        WriteRegDone(addr, reg, data, bytes, p0, t0, t1, trace, peer, 1);
        return 1;
      }
      status := SendData(p0, t1, bytes, 2, data);
      WriteRegDone(addr, reg, data, bytes, p0, t0, t1, trace, peer, status);
    }

    /** `iic_write_address16`: `addr`, the high then the low byte of `reg`, then `buf[0..len)`. */
    method WriteAddress16(addr: Byte, reg: Word, buf: array<Byte>, len: Word) returns (status: Byte)
      requires len as int <= buf.Length
      modifies this
      ensures var o := WriteAddress16Run(addr, reg, old(buf[..len]), old(peer));
        && status == o.status && trace == old(trace) + o.events && peer == o.rest
        && scl && sdaLatch && sdaIsOutput
    {
      var data := buf[..len];
      ghost var p0 := peer;
      ghost var t0 := trace;
      var hi := HighByte(reg);
      var lo := LowByte(reg);
      ghost var bytes := Prefixed3(addr, hi, lo, data);
      Start();
      ghost var t1 := trace;
      AckedStart(bytes, p0, t1);
      var acked := SendNext(p0, t1, bytes, 0, addr);
      if !acked {
        WriteAddress16Done(addr, reg, data, bytes, p0, t0, t1, trace, peer, 1);
        return 1;
      }
      acked := SendNext(p0, t1, bytes, 1, hi);
      if !acked {
        WriteAddress16Done(addr, reg, data, bytes, p0, t0, t1, trace, peer, 1);
        return 1;
      }
      acked := SendNext(p0, t1, bytes, 2, lo);
      if !acked {
        WriteAddress16Done(addr, reg, data, bytes, p0, t0, t1, trace, peer, 1);
        return 1;
      }
      status := SendData(p0, t1, bytes, 3, data);
      WriteAddress16Done(addr, reg, data, bytes, p0, t0, t1, trace, peer, status);
    }

    /**
     * The part every read shares: a START, `readAddr`, then `len` bytes into
     * `buf`, with trace t0 before the header the read sent ahead of it.
     */
    method ReadData(ghost t0: seq<Event>, ghost prefix: seq<Event>, ghost p1: seq<bool>, readAddr: Byte, buf: array<Byte>, len: nat)
      returns (status: Byte)
      requires len <= buf.Length && trace == t0 + prefix && peer == p1
      modifies this, buf
      ensures ReadOver(prefix, readAddr, len, p1, t0, trace, peer, status, buf[..len])
      ensures scl && sdaLatch && sdaIsOutput
      ensures status == 0 ==> forall j :: len <= j < buf.Length ==> buf[j] == old(buf[j])
      ensures status != 0 ==> unchanged(buf)
    {
      Start();
      ghost var t2 := trace;
      AckedStart([readAddr], p1, t2);
      var acked := SendNext(p1, t2, [readAddr], 0, readAddr);
      if !acked {
        ReadAborted(t0, prefix, readAddr, len, p1, t2, trace, peer, buf[..len]);
        return 1;
      }
      ghost var tr1 := trace;
      ghost var pr1 := peer;
      ReceiveData(buf, len);
      ReadReceived(t0, prefix, readAddr, len, p1, t2, tr1, pr1, trace, peer, buf[..len]);
      return 0;
    }

    /** `iic_read`: `addr` and `reg`, a repeated START, `addr + 1`, then `len` bytes into `buf`. */
    method Read(addr: Byte, reg: Byte, buf: array<Byte>, len: Word) returns (status: Byte)
      requires len as int <= buf.Length
      modifies this, buf
      ensures var o := ReadRun(addr, reg, len as nat, old(peer));
        && status == o.status && trace == old(trace) + o.events && peer == o.rest
        && scl && sdaLatch && sdaIsOutput
        && (status == 0 ==> buf[..len] == o.data && (forall j :: len as int <= j < buf.Length ==> buf[j] == old(buf[j])))
        && (status != 0 ==> unchanged(buf))
    {
      ghost var p0 := peer;
      ghost var t0 := trace;
      ghost var header := Prefixed2(addr, reg, []);
      Start();
      ghost var t1 := trace;
      AckedStart(header, p0, t1);
      var acked := SendNext(p0, t1, header, 0, addr);
      if !acked {
        ReadAbort(addr, reg, len as nat, p0, header, t0, t1, trace, peer);
        return 1;
      }
      acked := SendNext(p0, t1, header, 1, reg);
      if !acked {
        ReadAbort(addr, reg, len as nat, p0, header, t0, t1, trace, peer);
        return 1;
      }
      ghost var p1 := peer;
      ghost var prefix := HeaderSent(header, p0, t0, t1, trace, peer);
      status := ReadData(t0, prefix, p1, addr + 1, buf, len as nat);
      ReadDone(addr, reg, len as nat, p0, header, prefix, p1, t0, trace, peer, status, buf[..len]);
    }

    /** `iic_read_address16`: as `iic_read` with the two bytes of a 16-bit register address. */
    method ReadAddress16(addr: Byte, reg: Word, buf: array<Byte>, len: Word) returns (status: Byte)
      requires len as int <= buf.Length
      modifies this, buf
      ensures var o := ReadAddress16Run(addr, reg, len as nat, old(peer));
        && status == o.status && trace == old(trace) + o.events && peer == o.rest
        && scl && sdaLatch && sdaIsOutput
        && (status == 0 ==> buf[..len] == o.data && (forall j :: len as int <= j < buf.Length ==> buf[j] == old(buf[j])))
        && (status != 0 ==> unchanged(buf))
    {
      ghost var p0 := peer;
      ghost var t0 := trace;
      var hi := HighByte(reg);
      var lo := LowByte(reg);
      ghost var header := Prefixed3(addr, hi, lo, []);
      Start();
      ghost var t1 := trace;
      AckedStart(header, p0, t1);
      var acked := SendNext(p0, t1, header, 0, addr);
      if !acked {
        ReadAddress16Abort(addr, reg, len as nat, p0, header, t0, t1, trace, peer);
        return 1;
      }
      acked := SendNext(p0, t1, header, 1, hi);
      if !acked {
        ReadAddress16Abort(addr, reg, len as nat, p0, header, t0, t1, trace, peer);
        return 1;
      }
      acked := SendNext(p0, t1, header, 2, lo);
      if !acked {
        ReadAddress16Abort(addr, reg, len as nat, p0, header, t0, t1, trace, peer);
        return 1;
      }
      ghost var p1 := peer;
      ghost var prefix := HeaderSent(header, p0, t0, t1, trace, peer);
      status := ReadData(t0, prefix, p1, addr + 1, buf, len as nat);
      ReadAddress16Done(addr, reg, len as nat, p0, header, prefix, p1, t0, trace, peer, status, buf[..len]);
    }

    /** `iic_read_cmd`: `addr + 1` after a START, then `len` bytes into `buf`. */
    method ReadCmd(addr: Byte, buf: array<Byte>, len: Word) returns (status: Byte)
      requires len as int <= buf.Length
      modifies this, buf
      ensures var o := ReadCmdRun(addr, len as nat, old(peer));
        && status == o.status && trace == old(trace) + o.events && peer == o.rest
        && scl && sdaLatch && sdaIsOutput
        && (status == 0 ==> buf[..len] == o.data && (forall j :: len as int <= j < buf.Length ==> buf[j] == old(buf[j])))
        && (status != 0 ==> unchanged(buf))
    {
      ghost var p0 := peer;
      ghost var t0 := trace;
      AppendNil(t0);
      status := ReadData(t0, [], p0, addr + 1, buf, len as nat);
      ReadCmdDone(addr, len as nat, p0, t0, trace, peer, status, buf[..len]);
    }
  }
}
