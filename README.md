# Software I2C master of the STM32F407 interface, in Dafny

`project/stm32f407/interface/src/iic.c` drives an I2C bus by bit-banging two
GPIO lines: SCL, and SDA, whose direction the code switches between output
and input. It has two layers:

- **Bit-level helpers.** `_iic_start`, `_iic_stop`, `_iic_wait_ack`,
  `_iic_ack`, `_iic_nack`, `_iic_send_byte` and `_iic_read_byte`.
- **Transactions built from them.** Three writes (`iic_write_cmd`,
  `iic_write`, `iic_write_address16`) and three reads (`iic_read`,
  `iic_read_address16`, `iic_read_cmd`).

Three small functions set the lines directly: `iic_init`, `iic_scl_write`
and `iic_sda_write`.

## The model

- **`Bits`.** The C `uint8_t`/`uint16_t` values, as `bv8`/`bv16`. It has:
  - the levels `_iic_send_byte` drives, one per clock;
  - the `receive <<= 1; receive++` accumulator of `_iic_read_byte`;
  - the two bytes of a 16-bit register address;
  - the read address `addr + 1`, which wraps like a `uint8_t`.
- **`Wire`.** The line events the master performs:
  - writes to SCL and to the SDA output latch;
  - switching SDA to output or input;
  - each read of SDA, with the level it returned;
  - each `delay_us`.

  It also has a reference bus observer, kept separate from the code it
  checks. The observer turns a trace into wire symbols (START, STOP, and
  data bits tagged with the side that drove them), then into frames: a byte
  with its acknowledge, or a START or STOP. This follows sections 3.1.4 to
  3.1.6 of the NXP I2C-bus specification UM10204.
- **`Engine`.** Each helper as a pure line program, with lemmas saying what
  the observer sees in it. The device is a script of SDA levels that the
  master's reads consume; past its end the released line reads high.
- **`Protocol`.** Each transaction as a pure run over the script:
  - the events it performs;
  - the status it returns;
  - the bytes it reads;
  - the script it leaves.

  It also gives the frames an observer decodes from a send phase and from
  the receive loop.
- **`Transactions`.** Lemmas on the decoded trace of each whole transaction.
  They start from any monitor state with the SDA latch high and no sampled
  bit pending: `iic_init` leaves such a state, and every transaction ends
  on the idle bus, which is another.
- **`Iic`.** A class `Bus` with the line state:
  - `scl`, `sdaLatch` and `sdaIsOutput`;
  - the device script `peer`;
  - a ghost `trace`.

  Its methods follow the C functions statement by statement: the same
  loops, counters and early returns. Each appends exactly the events of the
  matching pure run, and the reads store exactly the bytes that run
  returns.

The contracts are stated through pure definitions. Except for the length
of `Bits.TxBits` (which has its own row), these carry no property of their
own; the lemmas about them do. Each one transcribes these lines of
`project/stm32f407/interface/src/iic.c`:

- `Bits.Msb`, `Bits.Shifted`, `Bits.TxBits`: `IIC_SDA = (txd&0x80) >> 7` and `txd <<= 1` in `_iic_send_byte`, lines 208-209.
- `Bits.ShiftIn`, `Bits.Accumulate`: `receive <<= 1` and `receive++` in `_iic_read_byte`, lines 235-239.
- `Bits.HighByte`, `Bits.LowByte`: `(reg>>8)&0xFF` and `reg&0xFF`, lines 390 and 397, and lines 495 and 502.
- `Bits.ReadAddress`: `addr + 1`, lines 448, 510 and 548.
- `Engine.InitSeq`: lines 78-79 of `iic_init`.
- `Engine.StartSeq`: `_iic_start`, lines 101-112.
- `Engine.StopSeq`: `_iic_stop`, lines 118-127.
- `Engine.WaitAckHead`, `Engine.WaitAckTail`, `Engine.Samples`, `Engine.WaitAckRun`: `_iic_wait_ack`, lines 136-159.
- `Engine.AckBitSeq`: `_iic_ack` and `_iic_nack`, lines 165-193.
- `Engine.BitCycle`, `Engine.ClockOut`, `Engine.SendByteSeq`: `_iic_send_byte`, lines 200-216.
- `Engine.ReadCycle`, `Engine.ClockIn`, `Engine.ByteLevels`, `Engine.ReadByteRun`: `_iic_read_byte`, lines 224-252.
- `Protocol.StepEvents`: one `_iic_send_byte`, `_iic_wait_ack` and, on a timeout, `_iic_stop`, as at lines 300-306.
- `Protocol.AckArg`: the `len == 1` choice at lines 458-465.
- `Protocol.WriteTransaction`, `Protocol.WriteCmdRun`: `iic_write_cmd`, lines 295-320.
- `Protocol.WriteRun`: `iic_write`, lines 333-365.
- `Protocol.WriteAddress16Run`: `iic_write_address16`, lines 378-417.
- `Protocol.AddressedRead`, `Protocol.ReadFrom`, `Protocol.ReadRun`: `iic_read`, lines 430-472.
- `Protocol.ReadAddress16Run`: `iic_read_address16`, lines 485-533.
- `Protocol.ReadCmdRun`: `iic_read_cmd`, lines 545-571.

The failure path keeps the code's behaviour. When no acknowledge arrives:

1. `_iic_wait_ack` calls `_iic_stop` while SCL is still high from the
   acknowledge clock, and the SDA latch is high.
2. The first step of `_iic_stop` pulls SDA low under a high SCL, which is
   itself a START condition. Only then comes the STOP.
3. The caller then runs `_iic_stop` again. This time SDA is already an
   output and no clock pulse is open, but the levels are the same: SCL
   high and the SDA latch high.

So a missing acknowledge decodes as `Sent(b), Nacked, Start, Stop, Start,
Stop` (`Protocol.AbortFrames`). The lemmas state this sequence exactly.

## Model

| member | source | states |
|---|---|---|
| Bits.TxBits | project/stm32f407/interface/src/iic.c:206-215 | the send loop drives exactly eight levels, one per turn of `for (t=0; t<8; t++)` |
| Bits.TxBitsMsbFirst | project/stm32f407/interface/src/iic.c:200-216 | the level `_iic_send_byte(x)` drives at clock t is bit 7 - t of x |
| Bits.AccumulateBits | project/stm32f407/interface/src/iic.c:224-252 | the i-th of n sampled levels is bit n - 1 - i of the accumulated byte: the first sample is the MSB |
| Bits.TxRoundTrip | project/stm32f407/interface/src/iic.c:200-252 | accumulating, as `_iic_read_byte` does, the levels `_iic_send_byte(x)` drives gives x back |
| Bits.WordSplit | project/stm32f407/interface/src/iic.c:390-397 | `(reg >> 8) & 0xFF` and `reg & 0xFF`, high byte first, rebuild the 16-bit register address (the same split is sent at lines 495-502 of `iic_read_address16`) |
| Engine.StartSymbols | project/stm32f407/interface/src/iic.c:101-112 | with the SDA latch high and no read pulse pending, `_iic_start` produces exactly one START and leaves SCL low and SDA driven high |
| Engine.StopFromLow | project/stm32f407/interface/src/iic.c:118-127 | `_iic_stop` entered with SCL low produces exactly one STOP and leaves both lines high, SDA driven |
| Engine.StopFromHigh | project/stm32f407/interface/src/iic.c:118-127 | `_iic_stop` entered with SCL and the SDA latch high produces a START, then a STOP, and leaves the bus idle |
| Engine.SendByteSymbols | project/stm32f407/interface/src/iic.c:200-216 | `_iic_send_byte(x)` yields exactly eight master-driven bits, the levels of x MSB-first, with SDA driven throughout and SCL left low |
| Engine.WaitAckOutcome | project/stm32f407/interface/src/iic.c:136-159 | `_iic_wait_ack` acknowledges iff one of the first 501 reads of SDA is low; it stops at the first low read, and on a timeout it has read 501 high levels |
| Engine.WaitAckSymbols | project/stm32f407/interface/src/iic.c:136-159 | an acknowledge is one device-driven low bit, then SCL low again; a timeout is the high bit, then a START and a STOP, leaving the bus idle |
| Engine.AckBitSymbols | project/stm32f407/interface/src/iic.c:165-193 | after the last read pulse, `_iic_ack` / `_iic_nack` close that bit, then drive one master bit (low for ACK, high for NACK) and leave SCL low |
| Engine.ReadByteSymbols | project/stm32f407/interface/src/iic.c:224-252 | `_iic_read_byte(ack)` yields the eight sampled levels as device-driven bits, then a master bit that is high (NACK) iff ack is 0 |
| Protocol.PhaseDecodes | project/stm32f407/interface/src/iic.c:299-316 | a send phase decodes as each byte sent and acknowledged in order, up to the first unacknowledged byte, which is followed by two START/STOP pairs and nothing else |
| Protocol.ReceiveDecodes | project/stm32f407/interface/src/iic.c:456-469 | the receive loop decodes as one Received frame per byte, with ACK on all but the last of len bytes and NACK on the last |
| Transactions.WriteTransactionDecodes | project/stm32f407/interface/src/iic.c:295-320 | a write decodes as START, its phase, and a STOP when every byte was acknowledged; it returns 0 exactly then, and leaves the bus idle |
| Transactions.WriteOutcome | project/stm32f407/interface/src/iic.c:295-320 | status is 0 or 1; on 0 the trace is START, every byte acknowledged in order, then STOP; on 1 it is START, the bytes before some byte k acknowledged, then byte k unacknowledged and the two START/STOP pairs |
| Transactions.WriteStops | project/stm32f407/interface/src/iic.c:301-317 | every write ends with a STOP; it succeeds iff no NACK is decoded, and a successful write holds no other STOP |
| Transactions.WriteCmdOutcome | project/stm32f407/interface/src/iic.c:295-320 | `iic_write_cmd` sends `addr` and then `buf[0..len)`, under the outcome of WriteOutcome |
| Transactions.WriteRegisterOutcome | project/stm32f407/interface/src/iic.c:333-365 | `iic_write` sends `addr`, `reg`, then `buf[0..len)`, under the outcome of WriteOutcome |
| Transactions.WriteAddress16Outcome | project/stm32f407/interface/src/iic.c:378-417 | `iic_write_address16` sends `addr`, `(reg >> 8) & 0xFF`, `reg & 0xFF`, then `buf[0..len)`, under the outcome of WriteOutcome |
| Transactions.ReadFromDecodes | project/stm32f407/interface/src/iic.c:446-469 | START and the read address, then on its acknowledge exactly len received bytes and STOP, otherwise the abort frames; status 0 iff the read address was acknowledged |
| Transactions.AddressedReadDecodes | project/stm32f407/interface/src/iic.c:430-472 | the combined format: header bytes, a repeated START, the read address and the data; it aborts at the first missing acknowledge, succeeds iff every address and register byte was acknowledged, and yields exactly len bytes on success and none on failure |
| Transactions.ReadOutcome | project/stm32f407/interface/src/iic.c:430-472 | status is 0 or 1; on 0, every header byte acknowledged, a repeated START, the read address acknowledged, len bytes each ACKed but the last, then STOP; on 1, no data and an abort in the header or at the read address |
| Transactions.ReadRegisterOutcome | project/stm32f407/interface/src/iic.c:430-472 | `iic_read` sends `addr` and `reg`, a repeated START, `addr + 1` (mod 256), then reads len bytes, under the outcome of ReadOutcome |
| Transactions.ReadAddress16Outcome | project/stm32f407/interface/src/iic.c:485-533 | `iic_read_address16` sends `addr`, the high then the low register byte, a repeated START, `addr + 1`, then reads len bytes, under the outcome of ReadOutcome |
| Transactions.ReadCmdOutcome | project/stm32f407/interface/src/iic.c:545-571 | `iic_read_cmd` has one START, then `addr + 1` and, if acknowledged, len bytes ACKed but the last and a STOP; with no register phase and no repeated START |
| Transactions.InitSettles | project/stm32f407/interface/src/iic.c:78-79 | from any monitor state with no sampled bit pending, `iic_init` leaves both lines high, SDA driven and nothing pending, the state the transaction lemmas start from; from the pins out of reset it shows nothing on the wire |
| Transactions.WriteAfterInit | project/stm32f407/interface/src/iic.c:295-320 | the whole `Bus` trace from the pins out of reset, `iic_init`, then one write, decodes to START, every byte acknowledged and STOP on status 0, or to the abort at the first unacknowledged byte on status 1; the bus ends idle |
| Transactions.ReadAfterInit | project/stm32f407/interface/src/iic.c:430-472 | the whole `Bus` trace from reset, `iic_init`, then one read, decodes to the completed read with the len bytes returned on status 0, or to an abort with no data on status 1; the bus ends idle |
| Engine.Polls | project/stm32f407/interface/src/iic.c:145-154 | counting from read i, `_iic_wait_ack` reads SDA more than i and at most 501 times |
| Protocol.Phase | project/stm32f407/interface/src/iic.c:300-316 | a send phase sends at most its bytes; it sends all of them when it succeeds, and at least one when it fails |
| Protocol.Receive | project/stm32f407/interface/src/iic.c:456-469 | the receive loop, after i of len iterations, has read exactly i bytes |
| Iic.Bus.WriteScl | project/stm32f407/interface/src/iic.c:56 | `IIC_SCL = level` sets SCL, records the write and changes nothing else |
| Iic.Bus.WriteSda | project/stm32f407/interface/src/iic.c:57 | `IIC_SDA = level` sets the SDA latch, records the write and changes nothing else |
| Iic.Bus.SdaOutput | project/stm32f407/interface/src/iic.c:55 | `SDA_OUT()` makes SDA an output and changes nothing else |
| Iic.Bus.SdaInput | project/stm32f407/interface/src/iic.c:54 | `SDA_IN()` makes SDA an input and changes nothing else |
| Iic.Bus.ReadSda | project/stm32f407/interface/src/iic.c:58 | `READ_SDA` returns the device's next level, consumes it and records it |
| Iic.Bus.DelayUs | project/stm32f407/interface/src/iic.c:105 | `delay_us(us)` records the delay and changes no line |
| Iic.Bus.AckBit | project/stm32f407/interface/src/iic.c:165-193 | the body `_iic_ack` and `_iic_nack` share: appends the acknowledge clock at the given level and leaves SCL low and SDA driven at that level |
| Iic.Bus.Init | project/stm32f407/interface/src/iic.c:66-82 | `iic_init` returns 0 with SDA driven and both lines high |
| Iic.Bus.SclWrite | project/stm32f407/interface/src/iic.c:262-267 | `iic_scl_write` sets SCL to bit 0 of `value`, changes nothing else and returns 0 |
| Iic.Bus.SdaWrite | project/stm32f407/interface/src/iic.c:277-283 | `iic_sda_write` switches SDA to output, sets its latch to bit 0 of `value`, and returns 0 |
| Iic.Bus.Start | project/stm32f407/interface/src/iic.c:101-112 | appends exactly the events of `_iic_start` and leaves SCL low with SDA driven high |
| Iic.Bus.Stop | project/stm32f407/interface/src/iic.c:118-127 | appends exactly the events of `_iic_stop` and leaves both lines high with SDA driven |
| Iic.Bus.WaitAck | project/stm32f407/interface/src/iic.c:136-159 | the polling loop returns 0 or 1, 0 exactly when the pure poll acknowledges; it consumes exactly the levels it read and appends the matching events, including STOP on a timeout |
| Iic.Bus.Ack | project/stm32f407/interface/src/iic.c:165-176 | appends the ACK clock, with SDA low |
| Iic.Bus.Nack | project/stm32f407/interface/src/iic.c:182-193 | appends the NACK clock, with SDA high |
| Iic.Bus.SendByte | project/stm32f407/interface/src/iic.c:200-216 | the `txd <<= 1` loop appends exactly the eight bit cycles of the byte's levels MSB-first |
| Iic.Bus.ReadByte | project/stm32f407/interface/src/iic.c:224-252 | the loop returns the accumulated value of the eight levels it read, consumes exactly those levels, and appends the eight read cycles, then NACK iff ack is 0 |
| Iic.Bus.SendLoop | project/stm32f407/interface/src/iic.c:307-316 | the `for (i = 0; i < len; i++)` loop continues a send phase byte by byte, leaving at the first unacknowledged byte; when every byte is acknowledged it leaves SCL low, the latch high and SDA an input, as `_iic_wait_ack` does, and otherwise the stopped bus |
| Iic.Bus.ReceiveData | project/stm32f407/interface/src/iic.c:456-469 | the `while (len)` loop stores exactly the len bytes of the pure receive run in `buf[0..len)`, leaves the rest of `buf` unchanged, and ends with STOP |
| Iic.Bus.WriteCmd | project/stm32f407/interface/src/iic.c:295-320 | status, trace and remaining script are those of the pure `iic_write_cmd` run on `buf[0..len)`; the lines end idle |
| Iic.Bus.Write | project/stm32f407/interface/src/iic.c:333-365 | status, trace and remaining script are those of the pure `iic_write` run; the lines end idle |
| Iic.Bus.WriteAddress16 | project/stm32f407/interface/src/iic.c:378-417 | status, trace and remaining script are those of the pure `iic_write_address16` run; the lines end idle |
| Iic.Bus.Read | project/stm32f407/interface/src/iic.c:430-472 | as the pure `iic_read` run; on 0, `buf[0..len)` holds the bytes read and the rest is unchanged; on failure, `buf` is unchanged |
| Iic.Bus.ReadAddress16 | project/stm32f407/interface/src/iic.c:485-533 | as the pure `iic_read_address16` run, with the same buffer guarantees as Read |
| Iic.Bus.ReadCmd | project/stm32f407/interface/src/iic.c:545-571 | as the pure `iic_read_cmd` run, with the same buffer guarantees as Read |

## Left out

- `iic_deinit` (lines 90-95): its only effect is `HAL_GPIO_DeInit`, which is not modelled.
- GPIO plumbing is not modelled:
  - the bit-band macros (lines 43-58);
  - the `GPIO_InitTypeDef` set-up and the clock enable in `iic_init` (lines 68-76).

  The model keeps only their effect on the lines: a write stores bit 0 of the value, and `SDA_IN`/`SDA_OUT` switch the direction.
- `delay_us` is a call into code outside this file. It is recorded as a `Delay(us)` event, with no reasoning about time.
- Electrical behaviour is not modelled: open-drain versus push-pull, clock stretching and arbitration. The device is a script of the levels SDA reads, consumed one per read.
- The `volatile` qualifiers on the loop counters are dropped. The counters are modelled as `nat`; they never exceed 501 or `len`, so no `uint8_t`/`uint16_t` wrap-around can happen.
- Iic.Bus.WriteCmd, Iic.Bus.Write, Iic.Bus.WriteAddress16: the model takes `buf[0..len)` once at entry, while the C reads `buf[i]` inside the loop. The two agree because nothing writes to `buf` during a write.
- `project/raspberrypi4b/driver/src/raspberrypi4b_driver_max30102_interface.c`: it only forwards calls to a Linux I2C driver, sleeps and prints. It is not part of this model.
- Iic.Bus.SendStep, Iic.Bus.SendNext, Iic.Bus.SendData, Iic.Bus.ReadData: these group statements that the C repeats in each transaction. They have no counterpart function in `iic.c`, so they have no rows.
